/** The persistence layer: a minimal JPA entity manager over an explicit heap, and the
    generic repository (AbstractRepositoryJPA with its RepositoryJpa specialisation)
    that every entity type is stored through. */
module Persistence {
  import opened Wrappers
  import opened Text
  import opened Model
  import opened InvalidEntity

  /** The stored rows of every entity class: per class, the object under each identifier. */
  type Rows = map<ClassName, map<int, Ref>>

  /** The stored rows of one class. */
  function TableOf(rows: Rows, c: ClassName): map<int, Ref>
  {
    if c in rows then rows[c] else map[]
  }

  /** The persistence context. `heap` holds every entity object, managed or not; `rows`
      holds, per entity class, the managed object stored under each identifier;
      `removed` holds the objects removed in this context. */
  class EntityManager {
    var heap: map<Ref, EntityObj>
    var rows: Rows
    var removed: set<Ref>
    var nextRef: nat
    var nextId: int

    /** Every reference is below `nextRef`; every stored row names a heap object of its
        class carrying its identifier, which is below the next generated one; a removed
        object is no longer managed. */
    ghost predicate Valid()
      reads this
    {
      && (forall r :: r in heap ==> r < nextRef)
      && (forall c :: c in rows ==> ValidTable(c, rows[c]))
      && (forall r :: r in removed ==> r in heap && !IsManaged(r))
    }

    /** Every row of the table names a heap object of class `c` carrying its identifier,
        which is below the next generated one. */
    ghost predicate ValidTable(c: ClassName, table: map<int, Ref>)
      reads this
    {
      forall k :: k in table ==>
        && table[k] in heap
        && heap[table[k]].cls == c
        && heap[table[k]].id == Some(k)
        && k < nextId
    }

    constructor ()
      ensures Valid() && heap == map[] && rows == map[] && removed == {}
    {
      heap := map[];
      rows := map[];
      removed := {};
      nextRef := 0;
      nextId := 1;
    }

    /** The stored rows of one class. */
    function Table(c: ClassName): map<int, Ref>
      reads `rows
    {
      TableOf(rows, c)
    }

    /** The object is the managed instance of its class and identifier. */
    predicate IsManaged(r: Ref)
      reads this
    {
      && r in heap
      && heap[r].id.Some?
      && heap[r].id.value in Table(heap[r].cls)
      && Table(heap[r].cls)[heap[r].id.value] == r
    }

    /** The object carries an identifier but is neither managed nor removed here. */
    predicate Detached(r: Ref)
      reads this
    {
      r in heap && heap[r].id.Some? && !IsManaged(r) && r !in removed
    }

    /** The detached objects. */
    ghost function DetachedObjects(): set<Ref>
      reads this
    {
      set x | x in heap && Detached(x)
    }

    /** Creates an object (a constructor call in the application). */
    method Allocate(e: EntityObj) returns (r: Ref)
      requires Valid()
      modifies this
      ensures Valid()
      ensures r !in old(heap) && heap == old(heap)[r := e]
      ensures rows == old(rows) && removed == old(removed) && nextId == old(nextId)
    {
      r := nextRef;
      assert forall c, k :: c in rows && k in rows[c] ==> rows[c][k] in heap && rows[c][k] != r;
      heap := heap[r := e];
      nextRef := nextRef + 1;
      forall x | x in removed
        ensures !IsManaged(x)
      {
        ManagedBefore(x);
      }
    }

    /** Changes an object in place through its setters; a managed object keeps its class
        and identifier. */
    method Write(r: Ref, e: EntityObj)
      requires Valid() && r in heap
      requires IsManaged(r) ==> e.cls == heap[r].cls && e.id == heap[r].id
      modifies this
      ensures Valid()
      ensures heap == old(heap)[r := e]
      ensures rows == old(rows) && removed == old(removed) && nextId == old(nextId) && nextRef == old(nextRef)
    {
      heap := heap[r := e];
      forall x | x in removed
        ensures !IsManaged(x)
      {
        ManagedBefore(x);
      }
    }

    /** A managed object is in its table; as long as the tables take in no new place for
        it, it was managed before, whatever happened to the objects. */
    twostate lemma ManagedBefore(x: Ref)
      requires old(Valid())
      requires forall c, k :: c in rows && k in rows[c] && rows[c][k] == x ==>
        c in old(rows) && k in old(rows)[c] && old(rows)[c][k] == x
      ensures IsManaged(x) ==> old(IsManaged(x))
    {
      if IsManaged(x) {
        var c, k := heap[x].cls, heap[x].id.value;
        assert c in rows && k in rows[c] && rows[c][k] == x;
        assert old(ValidTable(c, rows[c]));
        assert old(heap[x].cls == c && heap[x].id == Some(k) && Table(c)[k] == x);
      }
    }

    /** persist of a new object: it is stored under a freshly generated identifier. */
    method Persist(r: Ref)
      requires Valid() && r in heap && heap[r].id.None?
      modifies this
      ensures Valid()
      ensures heap == old(heap)[r := old(heap[r]).(id := Some(old(nextId)))]
      ensures rows == old(rows)[old(heap[r]).cls := old(Table(heap[r].cls))[old(nextId) := r]]
      ensures removed == old(removed) - {r}
      ensures nextRef == old(nextRef) && nextId > old(nextId)
      ensures IsManaged(r)
    {
      var e := heap[r];
      var k := nextId;
      assert forall c, j :: c in rows && j in rows[c] ==> rows[c][j] != r;
      heap := heap[r := e.(id := Some(k))];
      rows := rows[e.cls := Table(e.cls)[k := r]];
      removed := removed - {r};
      nextId := nextId + 1;
      forall x | x in removed
        ensures !IsManaged(x)
      {
        ManagedBefore(x);
      }
    }

    /** merge of an object carrying an identifier: the state is copied onto the managed
        instance of that identifier, or, when there is none, onto a new managed instance
        stored under a generated identifier. The managed instance is returned. */
    method Merge(r: Ref) returns (m: Ref)
      requires Valid() && r in heap && heap[r].id.Some?
      modifies this
      ensures Valid()
      ensures IsManaged(m)
      ensures heap[m].cls == old(heap[r]).cls && heap[m].active == old(heap[r]).active
      ensures heap[m].fields == old(heap[r]).fields
      ensures removed == old(removed)
      ensures old(heap[r].id.value in Table(heap[r].cls)) ==>
        && m == old(Table(heap[r].cls)[heap[r].id.value])
        && heap == old(heap)[m := old(heap[r])] && rows == old(rows)
      ensures old(heap[r].id.value !in Table(heap[r].cls)) ==>
        && m !in old(heap)
        && heap == old(heap)[m := old(heap[r]).(id := Some(old(nextId)))]
        && rows == old(rows)[old(heap[r]).cls := old(Table(heap[r].cls))[old(nextId) := m]]
    {
      var e := heap[r];
      if e.id.value in Table(e.cls) {
        m := MergeOnto(r);
      } else {
        m := MergeAsNew(r);
      }
    }

    /** The managed instance of the identifier takes over the object's state. */
    method MergeOnto(r: Ref) returns (m: Ref)
      requires Valid() && r in heap && heap[r].id.Some? && heap[r].id.value in Table(heap[r].cls)
      modifies this
      ensures Valid() && IsManaged(m)
      ensures m == old(Table(heap[r].cls)[heap[r].id.value])
      ensures heap == old(heap)[m := old(heap[r])] && rows == old(rows) && removed == old(removed)
    {
      var e := heap[r];
      m := Table(e.cls)[e.id.value];
      StoredRow(this, e.cls, e.id.value);
      heap := heap[m := e];
      forall x | x in removed
        ensures !IsManaged(x)
      {
        ManagedBefore(x);
      }
    }

    /** With no managed instance of the identifier, a new one is stored under a generated
        identifier. */
    method MergeAsNew(r: Ref) returns (m: Ref)
      requires Valid() && r in heap && heap[r].id.Some? && heap[r].id.value !in Table(heap[r].cls)
      modifies this
      ensures Valid() && IsManaged(m)
      ensures m !in old(heap)
      ensures heap == old(heap)[m := old(heap[r]).(id := Some(old(nextId)))]
      ensures rows == old(rows)[old(heap[r]).cls := old(Table(heap[r].cls))[old(nextId) := m]]
      ensures removed == old(removed)
    {
      var e := heap[r];
      m := nextRef;
      assert forall c, j :: c in rows && j in rows[c] ==> rows[c][j] != m;
      nextRef := nextRef + 1;
      heap := heap[m := e.(id := Some(nextId))];
      rows := rows[e.cls := Table(e.cls)[nextId := m]];
      nextId := nextId + 1;
      forall x | x in removed
        ensures !IsManaged(x)
      {
        ManagedBefore(x);
      }
    }

    /** remove: a managed object leaves its table and becomes removed; a new or already
        removed object is ignored; a detached one raises IllegalArgumentException. Objects
        themselves are not changed, and no other object changes between managed, removed
        and detached. */
    method Remove(r: Ref) returns (res: Result<()>)
      requires Valid() && r in heap
      modifies this
      ensures Valid()
      ensures heap == old(heap) && nextRef == old(nextRef) && nextId == old(nextId)
      ensures res.Err? <==> old(Detached(r))
      ensures res.Err? ==> res.error == IllegalArgument
      ensures old(IsManaged(r)) ==>
        && rows == old(rows)[old(heap[r]).cls := old(Table(heap[r].cls)) - {old(heap[r]).id.value}]
        && removed == old(removed) + {r}
      ensures !old(IsManaged(r)) ==> rows == old(rows) && removed == old(removed)
      ensures res.Ok? ==> TablesWithout(rows, old(rows), [r])
      ensures !IsManaged(r)
      ensures forall x :: x != r ==> (IsManaged(x) <==> old(IsManaged(x)))
      ensures forall x :: Detached(x) <==> old(Detached(x))
      ensures DetachedObjects() == old(DetachedObjects())
    {
      RowsOf(this, r);
      if IsManaged(r) {
        var e := heap[r];
        rows := rows[e.cls := Table(e.cls) - {e.id.value}];
        removed := removed + {r};
        forall c
          ensures TableOf(rows, c) == RowsWithout(TableOf(old(rows), c), [r])
        {
          assert forall k :: k in Table(c) <==> k in old(Table(c)) && old(Table(c))[k] != r;
        }
        forall x | x != r && !old(IsManaged(x))
          ensures !IsManaged(x)
        {
          ManagedBefore(x);
        }
        res := Ok(());
      } else if heap[r].id.None? || r in removed {
        forall c
          ensures TableOf(rows, c) == RowsWithout(TableOf(rows, c), [r])
        {
          assert forall k :: k in Table(c) ==> Table(c)[k] != r;
        }
        res := Ok(());
      } else {
        res := Err(IllegalArgument);
      }
    }
  }

  /** The table without the rows that hold one of the given objects. */
  function RowsWithout(table: map<int, Ref>, gone: seq<Ref>): map<int, Ref>
  {
    map k | k in table && table[k] !in gone :: table[k]
  }

  /** Every table of `rows` is the table of `rows0` without the rows of the objects in `gone`. */
  ghost predicate TablesWithout(rows: Rows, rows0: Rows, gone: seq<Ref>) {
    forall c :: TableOf(rows, c) == RowsWithout(TableOf(rows0, c), gone)
  }

  /** Dropping the rows of one more object, after those of a list. */
  lemma RowsWithoutAppend(table: map<int, Ref>, gone: seq<Ref>, x: Ref)
    ensures RowsWithout(RowsWithout(table, gone), [x]) == RowsWithout(table, gone + [x])
  {
    assert forall y :: y in gone + [x] <==> y in gone || y == x;
  }

  /** Removing the objects of a list and then one more removes the objects of the longer list. */
  lemma TablesWithoutAppend(rows0: Rows, rows1: Rows, rows2: Rows, gone: seq<Ref>, x: Ref)
    requires TablesWithout(rows1, rows0, gone) && TablesWithout(rows2, rows1, [x])
    ensures TablesWithout(rows2, rows0, gone + [x])
  {
    forall c
      ensures TableOf(rows2, c) == RowsWithout(TableOf(rows0, c), gone + [x])
    {
      RowsWithoutAppend(TableOf(rows0, c), gone, x);
    }
  }

  /** No object of `gone` is managed once the rows of all of them have left the tables. */
  lemma NoneManaged(em: EntityManager, rows0: Rows, gone: seq<Ref>)
    requires TablesWithout(em.rows, rows0, gone)
    ensures forall e :: e in gone ==> !em.IsManaged(e)
  {
    forall e | e in gone && e in em.heap && em.heap[e].id.Some?
      ensures !em.IsManaged(e)
    {
      assert em.Table(em.heap[e].cls) == RowsWithout(TableOf(rows0, em.heap[e].cls), gone);
    }
  }

  /** An object is stored in no row but its own, and in that one only while managed. */
  lemma RowsOf(em: EntityManager, x: Ref)
    requires em.Valid()
    ensures forall c, k :: k in em.Table(c) && em.Table(c)[k] == x ==>
      em.IsManaged(x) && c == em.heap[x].cls && k == em.heap[x].id.value
  {
    forall c, k | k in em.Table(c) && em.Table(c)[k] == x
      ensures em.IsManaged(x) && c == em.heap[x].cls && k == em.heap[x].id.value
    {
      StoredRow(em, c, k);
    }
  }

  /** A stored row names a heap object of its class carrying its identifier. */
  lemma StoredRow(em: EntityManager, c: ClassName, k: int)
    requires em.Valid() && k in em.Table(c)
    ensures em.Table(c)[k] in em.heap && em.heap[em.Table(c)[k]].cls == c
    ensures em.heap[em.Table(c)[k]].id == Some(k) && k < em.nextId
  {
    assert c in em.rows;
  }

  // ---------------------------------------------------------------------------
  // The repository
  // ---------------------------------------------------------------------------

  /** The optional query capabilities a concrete repository overrides: for a term query,
      the identifiers of the matching rows in result order; for a list of identifiers,
      the identifiers of the rows the override returns, in its order. */
  datatype Queries = Queries(
    byTerm: Option<string -> seq<int>>,
    byTermActive: Option<string -> seq<int>>,
    byIds: Option<seq<int> -> seq<int>>)

  /** A method declared by a concrete repository class, with the outcome of invoking it
      without arguments. */
  datatype RepoMethod = RepoMethod(name: string, parameterCount: nat, outcome: Result<string>)

  /** The given identifiers that are stored, in the order given. */
  function StoredIds(table: map<int, Ref>, ids: seq<int>): (r: seq<int>)
    ensures |r| <= |ids|
    ensures forall k :: k in r <==> k in ids && k in table
    ensures (forall i :: 0 <= i < |ids| ==> ids[i] in table) ==> r == ids
  {
    if |ids| == 0 then []
    else if ids[0] in table then [ids[0]] + StoredIds(table, ids[1..])
    else StoredIds(table, ids[1..])
  }

  /** The stored objects of the given identifiers, in the order given, skipping the absent ones. */
  function RowsFor(table: map<int, Ref>, ids: seq<int>): (refs: seq<Ref>)
    ensures |refs| == |StoredIds(table, ids)| <= |ids|
    ensures forall i :: 0 <= i < |refs| ==> StoredIds(table, ids)[i] in table && refs[i] == table[StoredIds(table, ids)[i]]
    ensures forall x :: x in refs ==> x in table.Values
    ensures (forall i :: 0 <= i < |ids| ==> ids[i] in table) ==>
      |refs| == |ids| && forall i :: 0 <= i < |ids| ==> refs[i] == table[ids[i]]
  {
    var stored := StoredIds(table, ids);
    seq(|stored|, i requires 0 <= i < |stored| => table[stored[i]])
  }

  /** The table after removing the given identifiers one by one, and whether a removal
      failed; removal stops at the first identifier that is not (or no longer) stored. */
  datatype Removal = Removal(table: map<int, Ref>, failed: bool)

  function RemoveIds(table: map<int, Ref>, ids: seq<int>): Removal
  {
    if |ids| == 0 then Removal(table, false)
    else if ids[0] !in table then Removal(table, true)
    else RemoveIds(table - {ids[0]}, ids[1..])
  }

  /** Removing a list of identifiers succeeds exactly when they are distinct and all
      stored, and then removes exactly them. */
  lemma {:induction false} RemoveIdsOutcome(table: map<int, Ref>, ids: seq<int>)
    ensures !RemoveIds(table, ids).failed <==>
      (forall k :: k in ids ==> k in table) && (forall i, j :: 0 <= i < j < |ids| ==> ids[i] != ids[j])
    ensures !RemoveIds(table, ids).failed ==>
      RemoveIds(table, ids).table == map k | k in table && k !in ids :: table[k]
    ensures RemoveIds(table, ids).table.Keys <= table.Keys
    decreases |ids|
  {
    if |ids| > 0 {
      var rest := ids[1..];
      RemoveIdsOutcome(table - {ids[0]}, rest);
      if ids[0] in table {
        assert RemoveIds(table, ids) == RemoveIds(table - {ids[0]}, rest);
        RemoveIdsStep(table, ids);
        assert ids == [ids[0]] + rest;
      } else {
        assert ids[0] in ids;
      }
    }
  }

  /** Removing the first identifier leaves the others to be all stored and distinct
      exactly when all of them were, the first one included. */
  lemma RemoveIdsStep(table: map<int, Ref>, ids: seq<int>)
    requires |ids| > 0 && ids[0] in table
    ensures ((forall k :: k in ids ==> k in table) && (forall i, j :: 0 <= i < j < |ids| ==> ids[i] != ids[j])) <==>
      ((forall k :: k in ids[1..] ==> k in table - {ids[0]}) &&
       (forall i, j :: 0 <= i < j < |ids[1..]| ==> ids[1..][i] != ids[1..][j]))
  {
    var rest := ids[1..];
    assert forall i :: 0 <= i < |rest| ==> rest[i] == ids[i + 1];
    if (forall k :: k in rest ==> k in table - {ids[0]}) && (forall i, j :: 0 <= i < j < |rest| ==> rest[i] != rest[j]) {
      forall k | k in ids
        ensures k in table
      {
        if k != ids[0] {
          var j :| 0 <= j < |ids| && ids[j] == k;
          assert rest[j - 1] == k;
          assert k in rest;
        }
      }
      forall i, j | 0 <= i < j < |ids|
        ensures ids[i] != ids[j]
      {
        if i == 0 {
          assert ids[j] == rest[j - 1];
          assert ids[j] in rest;
        } else {
          assert ids[i] == rest[i - 1] && ids[j] == rest[j - 1];
        }
      }
    }
    if (forall k :: k in ids ==> k in table) && (forall i, j :: 0 <= i < j < |ids| ==> ids[i] != ids[j]) {
      forall k | k in rest
        ensures k in table - {ids[0]}
      {
        var j :| 0 <= j < |rest| && rest[j] == k;
        assert ids[j + 1] == k;
      }
    }
  }

  /** AbstractRepositoryJPA specialised by RepositoryJpa: one entity class, stored
      through the shared entity manager. */
  class RepositoryJpa {
    const entityManager: EntityManager
    const entityClass: ClassDecl
    /** Bean validation of an entity. */
    const validator: EntityObj -> seq<Violation>
    const queries: Queries
    /** The QueryDSL metamodel classes on the classpath, with their public static fields. */
    const metamodel: map<ClassName, set<string>>
    /** The methods the concrete repository class declares, in reflection order. */
    const declaredMethods: seq<RepoMethod>

    constructor (entityManager: EntityManager, entityClass: ClassDecl, validator: EntityObj -> seq<Violation>,
                 queries: Queries, metamodel: map<ClassName, set<string>>, declaredMethods: seq<RepoMethod>)
      ensures this.entityManager == entityManager && this.entityClass == entityClass
      ensures this.validator == validator && this.queries == queries
      ensures this.metamodel == metamodel && this.declaredMethods == declaredMethods
    {
      this.entityManager := entityManager;
      this.entityClass := entityClass;
      this.validator := validator;
      this.queries := queries;
      this.metamodel := metamodel;
      this.declaredMethods := declaredMethods;
    }

    /** getEntityManager: the injected entity manager. */
    function GetEntityManager(): (em: EntityManager)
      ensures em == entityManager
    {
      entityManager
    }

    /** This repository's table. */
    function Table(): map<int, Ref>
      reads entityManager`rows
    {
      TableIn(entityManager.rows)
    }

    /** This repository's table within the stored rows `rows`. */
    function TableIn(rows: Rows): map<int, Ref>
    {
      TableOf(rows, entityClass.Name())
    }

    /** convertId: the identifier text parsed as a decimal Java int. */
    function ConvertId(idString: string): (r: Result<Int32>)
      ensures r.Ok? <==> SignedNumeral(idString) && MinInt32 <= NumeralValue(idString) <= MaxInt32
      ensures r.Ok? ==> r.value == NumeralValue(idString)
      ensures r.Err? ==> r.error == NumberFormat
    {
      ParseInt(idString)
    }

    /** get: the stored object of the identifier, never a missing one. */
    method Get(id: int) returns (r: Result<Ref>)
      requires entityManager.Valid()
      ensures r.Ok? <==> id in Table()
      ensures r.Ok? ==> r.value == Table()[id] && r.value in entityManager.heap
      ensures r.Ok? ==> entityManager.heap[r.value].id == Some(id) && entityManager.heap[r.value].cls == entityClass.Name()
      ensures r.Err? ==> r.error == EntityNotFound
    {
      var table := entityManager.Table(entityClass.Name());
      if id in table {
        StoredRow(entityManager, entityClass.Name(), id);
        r := Ok(table[id]);
      } else {
        r := Err(EntityNotFound);
      }
    }

    /** getEagerLoaded: the same object as `get`; lazy associations are loaded in place,
        which does not change their values. */
    method GetEagerLoaded(id: int) returns (r: Result<Ref>)
      requires entityManager.Valid()
      ensures r.Ok? <==> id in Table()
      ensures r.Ok? ==> r.value == Table()[id] && r.value in entityManager.heap
      ensures r.Ok? ==> entityManager.heap[r.value].id == Some(id) && entityManager.heap[r.value].cls == entityClass.Name()
      ensures r.Err? ==> r.error == EntityNotFound
    {
      r := Get(id);
    }

    /** remove(id): the stored object leaves the table and nothing else changes; an absent
        identifier raises EntityNotFoundException. */
    method RemoveById(id: int) returns (r: Result<()>)
      requires entityManager.Valid()
      modifies entityManager
      ensures entityManager.Valid()
      ensures r.Ok? <==> old(id in Table())
      ensures r.Ok? ==> entityManager.rows == old(entityManager.rows)[entityClass.Name() := old(Table()) - {id}]
      ensures r.Err? ==> r.error == EntityNotFound && entityManager.rows == old(entityManager.rows)
      ensures entityManager.heap == old(entityManager.heap)
      ensures entityManager.nextRef == old(entityManager.nextRef) && entityManager.nextId == old(entityManager.nextId)
    {
      var found := Get(id);
      if found.Err? {
        return Err(found.error);
      }
      var removed := entityManager.Remove(found.value);
      assert entityManager.heap[found.value].cls == entityClass.Name();
      r := Ok(());
    }

    /** remove(entity): the entity manager's remove. */
    method RemoveEntity(e: Ref) returns (r: Result<()>)
      requires entityManager.Valid() && e in entityManager.heap
      modifies entityManager
      ensures entityManager.Valid()
      ensures entityManager.heap == old(entityManager.heap)
      ensures r.Err? <==> old(entityManager.Detached(e))
      ensures r.Err? ==> r.error == IllegalArgument
      ensures old(entityManager.IsManaged(e)) ==>
        entityManager.rows == old(entityManager.rows)[old(entityManager.heap[e]).cls :=
          old(entityManager.Table(entityManager.heap[e].cls)) - {old(entityManager.heap[e]).id.value}]
      ensures !old(entityManager.IsManaged(e)) ==> entityManager.rows == old(entityManager.rows)
      ensures r.Ok? ==> TablesWithout(entityManager.rows, old(entityManager.rows), [e])
      ensures !entityManager.IsManaged(e)
      ensures entityManager.DetachedObjects() == old(entityManager.DetachedObjects())
    {
      r := entityManager.Remove(e);
    }

    /** removeByIds: the identifiers are removed in order until the first that is not stored. */
    method RemoveByIds(ids: seq<int>) returns (r: Result<()>)
      requires entityManager.Valid()
      modifies entityManager
      ensures entityManager.Valid()
      ensures Table() == RemoveIds(old(Table()), ids).table
      ensures r.Err? <==> RemoveIds(old(Table()), ids).failed
      ensures r.Err? ==> r.error == EntityNotFound
      ensures forall c :: c != entityClass.Name() ==> entityManager.Table(c) == old(entityManager.Table(c))
    {
      for i := 0 to |ids|
        invariant entityManager.Valid()
        invariant RemoveIds(old(Table()), ids) == RemoveIds(Table(), ids[i..])
        invariant forall c :: c != entityClass.Name() ==> entityManager.Table(c) == old(entityManager.Table(c))
      {
        var removed := RemoveById(ids[i]);
        if removed.Err? {
          return removed;
        }
        assert ids[i..][1..] == ids[i + 1..];
      }
      r := Ok(());
    }

    /** remove(list): each entity is removed in order; a detached one stops the loop.
        The rows that leave the tables are exactly those of the entities removed. */
    method RemoveEntities(entities: seq<Ref>) returns (r: Result<()>)
      requires entityManager.Valid() && forall e :: e in entities ==> e in entityManager.heap
      modifies entityManager
      ensures entityManager.Valid()
      ensures entityManager.heap == old(entityManager.heap)
      ensures r.Err? <==> exists i :: 0 <= i < |entities| && old(entityManager.Detached(entities[i]))
      ensures r.Err? ==> r.error == IllegalArgument
      ensures r.Ok? ==> TablesWithout(entityManager.rows, old(entityManager.rows), entities)
      ensures r.Ok? ==> forall e :: e in entities ==> !entityManager.IsManaged(e)
      ensures r.Err? ==> exists i ::
        && 0 <= i < |entities| && old(entityManager.Detached(entities[i]))
        && (forall j :: 0 <= j < i ==> !old(entityManager.Detached(entities[j])))
        && TablesWithout(entityManager.rows, old(entityManager.rows), entities[..i])
    {
      ghost var detached := entityManager.DetachedObjects();
      for i := 0 to |entities|
        invariant entityManager.Valid()
        invariant entityManager.heap == old(entityManager.heap)
        invariant entityManager.DetachedObjects() == detached
        invariant forall j :: 0 <= j < i ==> entities[j] !in detached
        invariant TablesWithout(entityManager.rows, old(entityManager.rows), entities[..i])
      {
        ghost var before := entityManager.rows;
        var removed := RemoveEntity(entities[i]);
        if removed.Err? {
          assert entities[i] in detached;
          return removed;
        }
        TablesWithoutAppend(old(entityManager.rows), before, entityManager.rows, entities[..i], entities[i]);
        assert entities[..i + 1] == entities[..i] + [entities[i]];
      }
      r := Ok(());
      assert entities[..|entities|] == entities;
      NoneManaged(entityManager, old(entityManager.rows), entities);
      assert forall i :: 0 <= i < |entities| ==> !old(entityManager.Detached(entities[i]));
    }

    /** getQEntity: the metamodel class `<package>.Q<SimpleName>` must exist and expose
        the static field named by the uncapitalised simple name. */
    function GetQEntity(): (r: Result<string>)
      ensures r.Ok? <==>
        && entityClass.pkg + ".Q" + entityClass.simpleName in metamodel
        && Uncapitalize(entityClass.simpleName) in metamodel[entityClass.pkg + ".Q" + entityClass.simpleName]
      ensures r.Err? ==> r.error == EntityNotMapped
    {
      var qClass := entityClass.pkg + ".Q" + entityClass.simpleName;
      if qClass in metamodel && Uncapitalize(entityClass.simpleName) in metamodel[qClass] then
        Ok(qClass + "." + Uncapitalize(entityClass.simpleName))
      else
        Err(EntityNotMapped)
    }

    /** getAll: every stored object of the class, each once, in no particular order. */
    method GetAll() returns (r: Result<seq<Ref>>)
      requires entityManager.Valid()
      ensures r.Err? <==> GetQEntity().Err?
      ensures r.Err? ==> r.error == EntityNotMapped
      ensures r.Ok? ==> (forall x :: x in r.value <==> x in Table().Values)
      ensures r.Ok? ==> |r.value| == |Table()| && forall i, j :: 0 <= i < j < |r.value| ==> r.value[i] != r.value[j]
    {
      if GetQEntity().Err? {
        return Err(EntityNotMapped);
      }
      var table := Table();
      var keys := table.Keys;
      var all: seq<Ref> := [];
      while keys != {}
        invariant keys <= table.Keys
        invariant forall i :: 0 <= i < |all| ==> all[i] in table.Values
        invariant forall k :: k in table && k !in keys ==> table[k] in all
        invariant |all| + |keys| == |table|
        invariant forall i, j :: 0 <= i < j < |all| ==> all[i] != all[j]
        invariant forall i :: 0 <= i < |all| ==>
          all[i] in entityManager.heap && entityManager.heap[all[i]].id.Some? && entityManager.heap[all[i]].id.value !in keys
        decreases |keys|
      {
        SomeKey(keys);
        var k :| k in keys;
        StoredRow(entityManager, entityClass.Name(), k);
        all := all + [table[k]];
        keys := keys - {k};
      }
      forall x | x in table.Values
        ensures x in all
      {
        ValueHasKey(table, x);
        var k :| k in table && table[k] == x;
      }
      return Ok(all);
    }

    /** validate: the violations found become an InvalidEntityException, one message each. */
    method Validate(e: Ref) returns (r: Result<()>)
      requires e in entityManager.heap
      ensures r.Err? <==> |validator(entityManager.heap[e])| > 0
      ensures r.Err? ==> r.error == InvalidEntity(ViolationMessages(validator(entityManager.heap[e])))
    {
      var violations := validator(entityManager.heap[e]);
      if |violations| > 0 {
        return Err(InvalidEntity(ViolationMessages(violations)));
      }
      r := Ok(());
    }

    /** put: validate; then persist a new object and return it, or merge one that carries
        an identifier and return the managed instance. An invalid object changes nothing. */
    method Put(e: Ref) returns (r: Result<Ref>)
      requires entityManager.Valid() && e in entityManager.heap
      modifies entityManager
      ensures entityManager.Valid()
      ensures r.Err? <==> |validator(old(entityManager.heap[e]))| > 0
      ensures r.Err? ==> r.error == InvalidEntity(ViolationMessages(validator(old(entityManager.heap[e]))))
      ensures r.Err? ==> unchanged(entityManager)
      ensures r.Ok? ==> entityManager.IsManaged(r.value)
      ensures r.Ok? ==> entityManager.heap[r.value].fields == old(entityManager.heap[e]).fields
      ensures r.Ok? ==> entityManager.heap[r.value].cls == old(entityManager.heap[e]).cls
      ensures r.Ok? && old(entityManager.heap[e].id.None?) ==>
        && r.value == e
        && entityManager.heap == old(entityManager.heap)[e := old(entityManager.heap[e]).(id := Some(old(entityManager.nextId)))]
        && entityManager.rows == old(entityManager.rows)[old(entityManager.heap[e]).cls :=
             old(entityManager.Table(entityManager.heap[e].cls))[old(entityManager.nextId) := e]]
      ensures r.Ok? && old(entityManager.heap[e].id.Some?) && old(entityManager.IsManaged(e)) ==>
        r.value == e && entityManager.heap == old(entityManager.heap) && entityManager.rows == old(entityManager.rows)
      ensures r.Ok? && old(entityManager.heap[e].id.Some? && entityManager.heap[e].id.value in entityManager.Table(entityManager.heap[e].cls)) ==>
        && r.value == old(entityManager.Table(entityManager.heap[e].cls)[entityManager.heap[e].id.value])
        && entityManager.heap == old(entityManager.heap)[r.value := old(entityManager.heap[e])]
        && entityManager.rows == old(entityManager.rows)
      ensures r.Ok? && old(entityManager.heap[e].id.Some? && entityManager.heap[e].id.value !in entityManager.Table(entityManager.heap[e].cls)) ==>
        && r.value !in old(entityManager.heap)
        && entityManager.heap == old(entityManager.heap)[r.value := old(entityManager.heap[e]).(id := Some(old(entityManager.nextId)))]
        && entityManager.rows == old(entityManager.rows)[old(entityManager.heap[e]).cls :=
             old(entityManager.Table(entityManager.heap[e].cls))[old(entityManager.nextId) := r.value]]
      ensures forall c :: c != old(entityManager.heap[e].cls) ==> entityManager.Table(c) == old(entityManager.Table(c))
    {
      var valid := Validate(e);
      if valid.Err? {
        return Err(valid.error);
      }
      if entityManager.heap[e].id.None? {
        entityManager.Persist(e);
        return Ok(e);
      }
      var m := entityManager.Merge(e);
      r := Ok(m);
    }

    /** getByTerm: raises NotImplementedException unless the concrete repository overrides it. */
    function GetByTerm(q: string): (r: Result<seq<Ref>>)
      reads entityManager`rows
      ensures r.Err? <==> queries.byTerm.None?
      ensures r.Err? ==> r.error == NotImplemented
      ensures r.Ok? ==> forall x :: x in r.value ==> x in Table().Values
    {
      match queries.byTerm
      case None => Err(NotImplemented)
      case Some(matching) => Ok(RowsFor(Table(), matching(q)))
    }

    /** getByTermActive: raises NotImplementedException unless overridden. */
    function GetByTermActive(q: string): (r: Result<seq<Ref>>)
      reads entityManager`rows
      ensures r.Err? <==> queries.byTermActive.None?
      ensures r.Err? ==> r.error == NotImplemented
      ensures r.Ok? ==> forall x :: x in r.value ==> x in Table().Values
    {
      match queries.byTermActive
      case None => Err(NotImplemented)
      case Some(matching) => Ok(RowsFor(Table(), matching(q)))
    }

    /** getByIds: raises NotImplementedException unless overridden; an override returns
        the stored objects of the rows it selects, in its order. */
    function GetByIds(ids: seq<int>): (r: Result<seq<Ref>>)
      reads entityManager`rows
      ensures r == GetByIdsIn(entityManager.rows, ids)
      ensures r.Err? <==> queries.byIds.None?
      ensures r.Err? ==> r.error == NotImplemented
      ensures r.Ok? ==> forall x :: x in r.value ==> x in Table().Values
      ensures r.Ok? ==>
        var selected := queries.byIds.value(ids);
        && |r.value| == |StoredIds(Table(), selected)|
        && forall i :: 0 <= i < |r.value| ==> r.value[i] == Table()[StoredIds(Table(), selected)[i]]
      ensures r.Ok? && (forall i :: 0 <= i < |queries.byIds.value(ids)| ==> queries.byIds.value(ids)[i] in Table()) ==>
        var selected := queries.byIds.value(ids);
        |r.value| == |selected| && forall i :: 0 <= i < |selected| ==> r.value[i] == Table()[selected[i]]
    {
      GetByIdsIn(entityManager.rows, ids)
    }

    /** getByIds answered from the stored rows `rows`. */
    function GetByIdsIn(rows: Rows, ids: seq<int>): (r: Result<seq<Ref>>)
      ensures r.Err? <==> queries.byIds.None?
      ensures r.Err? ==> r.error == NotImplemented
      ensures r.Ok? ==>
        var selected := queries.byIds.value(ids);
        && |r.value| == |StoredIds(TableIn(rows), selected)|
        && forall i :: 0 <= i < |r.value| ==> r.value[i] == TableIn(rows)[StoredIds(TableIn(rows), selected)[i]]
    {
      match queries.byIds
      case None => Err(NotImplemented)
      case Some(selecting) => Ok(RowsFor(TableIn(rows), selecting(ids)))
    }
  }

  /** A non-empty set has an element. */
  lemma SomeKey(s: set<int>)
    requires s != {}
    ensures exists k :: k in s
  {
    if forall k :: k !in s {
      assert false;
    }
  }

  /** A value of a map is stored under some key. */
  lemma ValueHasKey(m: map<int, Ref>, x: Ref)
    requires x in m.Values
    ensures exists k :: k in m && m[k] == x
  {
    if forall k :: k in m ==> m[k] != x {
      assert false;
    }
  }

  /** convertId reads back what Integer.toString writes, for every int. */
  lemma ConvertIdRoundTrip(repo: RepositoryJpa, n: Int32)
    ensures repo.ConvertId(IntToString(n)) == Ok(n)
  {
    ParseIntToString(n);
  }
}
