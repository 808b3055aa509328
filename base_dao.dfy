/**
 * Dao/BaseDao.cs: the generic CRUD accessor over one entity set. The set is a table from id
 * to entity fields, together with the order in which the store enumerates its rows and the
 * next value of its identity column. The AutoMapper configuration is three functions fixed at
 * construction: `project` (the `ProjectTo` of an entity to its read model), `fromCreate`
 * (`Map<TEntity>(createModel)`) and `applyUpdate` (`Map(updateModel, entity)`).
 */
module Dao {
  import opened Wrappers

  /** A persisted row: its `Id` (the key) and the rest of the entity. */
  datatype Entity<F> = Entity(id: int, fields: F)

  /** `Where(predicate)` over rows in store order. */
  function Where<E>(s: seq<E>, p: E -> bool): seq<E>
  {
    if s == [] then [] else (if p(s[0]) then [s[0]] else []) + Where(s[1..], p)
  }

  /** A row is in the filtered query exactly when it is a row and satisfies the predicate. */
  lemma {:induction false} WhereMembership<E>(s: seq<E>, p: E -> bool)
    ensures forall x :: x in Where(s, p) <==> x in s && p(x)
  {
    if s != [] {
      WhereMembership(s[1..], p);
      assert s == [s[0]] + s[1..];
    }
  }

  /** Filtering keeps the relative order of the rows: it distributes over concatenation. */
  lemma {:induction false} WhereConcat<E>(a: seq<E>, b: seq<E>, p: E -> bool)
    ensures Where(a + b, p) == Where(a, p) + Where(b, p)
  {
    if a == [] {
      assert a + b == b;
    } else {
      assert (a + b)[1..] == a[1..] + b;
      WhereConcat(a[1..], b, p);
    }
  }

  /**
   * A matching row at store position `i` comes out at the position given by the number of
   * matching rows before it.
   */
  lemma WhereAt<E>(s: seq<E>, p: E -> bool, i: nat)
    requires i < |s| && p(s[i])
    ensures |Where(s[..i], p)| < |Where(s, p)| && Where(s, p)[|Where(s[..i], p)|] == s[i]
  {
    assert s == s[..i] + s[i..];
    WhereConcat(s[..i], s[i..], p);
    assert s[i..][0] == s[i];
  }

  /** The query with an optional `Where`: a null predicate keeps every row. */
  function Filter<E>(s: seq<E>, filter: Option<E -> bool>): seq<E>
  {
    if filter.Some? then Where(s, filter.value) else s
  }

  lemma FilterMembership<E>(s: seq<E>, filter: Option<E -> bool>)
    ensures forall x :: x in Filter(s, filter) <==> x in s && (filter.None? || filter.value(x))
  {
    if filter.Some? {
      WhereMembership(s, filter.value);
    }
  }

  /** `ProjectTo<TReadModel>` over a query. */
  function Select<E, R>(s: seq<E>, f: E -> R): seq<R>
  {
    seq(|s|, i requires 0 <= i < |s| => f(s[i]))
  }

  lemma SelectMembership<E, R>(s: seq<E>, f: E -> R)
    ensures forall x :: x in Select(s, f) <==> exists e :: e in s && x == f(e)
  {
    forall x | exists e :: e in s && x == f(e)
      ensures x in Select(s, f)
    {
      var e :| e in s && x == f(e);
      var i :| 0 <= i < |s| && s[i] == e;
      assert Select(s, f)[i] == x;
    }
  }

  ghost predicate Distinct(keys: seq<int>)
  {
    forall i, j :: 0 <= i < j < |keys| ==> keys[i] != keys[j]
  }

  /** The store order after the row `id` is removed. */
  function Without(keys: seq<int>, id: int): (r: seq<int>)
    ensures forall k :: k in r <==> k in keys && k != id
    ensures Distinct(keys) ==> Distinct(r)
  {
    if keys == [] then []
    else
      var rest := Without(keys[1..], id);
      assert Distinct(keys) ==> keys[0] !in keys[1..];
      (if keys[0] == id then [] else [keys[0]]) + rest
  }

  lemma {:induction false} DistinctCardinality(keys: seq<int>)
    requires Distinct(keys)
    ensures |set k | k in keys| == |keys|
  {
    if keys != [] {
      var rest := keys[1..];
      DistinctCardinality(rest);
      assert keys[0] !in rest;
      assert (set k | k in keys) == (set k | k in rest) + {keys[0]};
    }
  }

  /** The rows of the table in store order. */
  function RowsOf<F>(order: seq<int>, rows: map<int, F>): seq<Entity<F>>
    requires forall i :: 0 <= i < |order| ==> order[i] in rows
  {
    seq(|order|, i requires 0 <= i < |order| => Entity(order[i], rows[order[i]]))
  }

  /** Over distinct keys, the filtered rows are as many as the keys whose row satisfies the predicate. */
  lemma {:induction false} WhereRowsCount<F>(order: seq<int>, rows: map<int, F>, p: Entity<F> -> bool)
    requires Distinct(order)
    requires forall i :: 0 <= i < |order| ==> order[i] in rows
    ensures |Where(RowsOf(order, rows), p)| == |set k | k in order && k in rows && p(Entity(k, rows[k]))|
  {
    if order != [] {
      var rest := order[1..];
      assert forall i :: 0 <= i < |rest| ==> rest[i] == order[i + 1];
      assert Distinct(rest);
      WhereRowsCount(rest, rows, p);
      assert RowsOf(order, rows)[1..] == RowsOf(rest, rows);
      assert order[0] !in rest;
      var matching := set k | k in order && k in rows && p(Entity(k, rows[k]));
      var restMatching := set k | k in rest && k in rows && p(Entity(k, rows[k]));
      if p(Entity(order[0], rows[order[0]])) {
        assert matching == restMatching + {order[0]};
      } else {
        assert matching == restMatching;
      }
    }
  }

  /** The predicate of `Where(p => p.Id == id)`. */
  function HasId<F>(id: int): Entity<F> -> bool
  {
    (e: Entity<F>) => e.id == id
  }

  class BaseDao<F(!new), R(!new), C, U> {
    var rows: map<int, F>
    var order: seq<int>
    var nextId: int
    const project: Entity<F> -> R
    const fromCreate: C -> F
    const applyUpdate: (U, F) -> F

    /** Every key appears once in the store order, and the identity column is ahead of every key. */
    ghost predicate Valid()
      reads this
    {
      && Distinct(order)
      && (forall k :: k in order <==> k in rows)
      && (forall k :: k in rows ==> k < nextId)
    }

    function Rows(): seq<Entity<F>>
      reads this
      requires Valid()
    {
      assert forall i :: 0 <= i < |order| ==> order[i] in order && order[i] in rows;
      RowsOf(order, rows)
    }

    lemma RowsAreEntities()
      requires Valid()
      ensures forall e: Entity<F> :: e in Rows() <==> e.id in rows && e == Entity(e.id, rows[e.id])
    {
      forall e: Entity<F> | e.id in rows && e == Entity(e.id, rows[e.id])
        ensures e in Rows()
      {
        var i :| 0 <= i < |order| && order[i] == e.id;
        assert Rows()[i] == e;
      }
    }

    constructor (project: Entity<F> -> R, fromCreate: C -> F, applyUpdate: (U, F) -> F)
      ensures Valid() && rows == map[] && order == []
      ensures this.project == project && this.fromCreate == fromCreate && this.applyUpdate == applyUpdate
    {
      rows, order, nextId := map[], [], 1;
      this.project, this.fromCreate, this.applyUpdate := project, fromCreate, applyUpdate;
    }

    /**
     * `ReadModel(id)`: the projection of the row with that id, or null when there is none.
     * The query is untracked and leaves the store as it is.
     */
    function ReadModel(id: int): (r: Option<R>)
      reads this
      requires Valid()
      ensures r.Some? <==> id in rows
      ensures id in rows ==> r.value == project(Entity(id, rows[id]))
    {
      var matching := Where(Rows(), HasId(id));
      var models := Select(matching, project);
      WhereMembership(Rows(), HasId(id));
      RowsAreEntities();
      assert id in rows ==> Entity(id, rows[id]) in matching;
      if models == [] then None else Some(models[0])
    }

    lemma FilteredCount(filter: Option<Entity<F> -> bool>)
      requires Valid()
      ensures filter.Some? ==>
                |Where(Rows(), filter.value)| == |set k | k in rows && filter.value(Entity(k, rows[k]))|
    {
      if filter.Some? {
        assert forall i :: 0 <= i < |order| ==> order[i] in order && order[i] in rows;
        WhereRowsCount(order, rows, filter.value);
        assert (set k | k in rows && filter.value(Entity(k, rows[k])))
            == (set k | k in order && k in rows && filter.value(Entity(k, rows[k])));
      }
    }

    /**
     * `QueryModel(predicate)`: the projections of the rows satisfying the predicate (of every
     * row when it is null), and only those. The query is untracked.
     */
    function QueryModel(filter: Option<Entity<F> -> bool>): (r: seq<R>)
      reads this
      requires Valid()
      ensures forall x :: x in r <==>
                exists k :: k in rows && (filter.None? || filter.value(Entity(k, rows[k])))
                            && x == project(Entity(k, rows[k]))
      ensures filter.None? ==> |r| == |rows|
      ensures filter.Some? ==> |r| == |set k | k in rows && filter.value(Entity(k, rows[k]))|
      ensures filter.None? ==> |r| == |order| && forall i :: 0 <= i < |order| ==> r[i] == project(Rows()[i])
    {
      var query := Rows();
      var filtered := Filter(query, filter);
      FilterMembership(query, filter);
      RowsAreEntities();
      SelectMembership(filtered, project);
      DistinctCardinality(order);
      assert rows.Keys == set k | k in order by {
        forall k ensures k in rows.Keys <==> k in order { }
      }
      FilteredCount(filter);
      Select(filtered, project)
    }

    /**
     * The rows come out in store order: the row at store position `i`, if it matches, is the
     * result at the position counting the matching rows before it.
     */
    lemma QueryModelInStoreOrder(p: Entity<F> -> bool, i: nat)
      requires Valid() && i < |order| && p(Rows()[i])
      ensures |Where(Rows()[..i], p)| < |QueryModel(Some(p))|
      ensures QueryModel(Some(p))[|Where(Rows()[..i], p)|] == project(Rows()[i])
    {
      WhereAt(Rows(), p, i);
    }

    /**
     * `CreateModel`: the mapped entity is added under a key the store did not hold, saved,
     * and read back through `ReadModel`.
     */
    method CreateModel(createModel: C) returns (r: Option<R>)
      requires Valid()
      modifies this
      ensures Valid()
      ensures old(nextId) !in old(rows)
      ensures rows == old(rows)[old(nextId) := fromCreate(createModel)]
      ensures order == old(order) + [old(nextId)]
      ensures r == ReadModel(old(nextId))
      ensures r == Some(project(Entity(old(nextId), fromCreate(createModel))))
    {
      var fields := fromCreate(createModel);
      // AddAsync and SaveChangesAsync: the identity column assigns the key.
      var id := nextId;
      assert id !in order;
      rows := rows[id := fields];
      order := order + [id];
      nextId := nextId + 1;
      r := ReadModel(id);
    }

    /**
     * `UpdateModel`: on an absent id nothing is saved and null comes back; otherwise only
     * that row's fields change, and the saved row is read back through `ReadModel`.
     */
    method UpdateModel(id: int, updateModel: U) returns (r: Option<R>)
      requires Valid()
      modifies this
      ensures Valid()
      ensures order == old(order) && nextId == old(nextId) && rows.Keys == old(rows).Keys
      ensures id !in old(rows) ==> r.None? && rows == old(rows)
      ensures id in old(rows) ==>
                && rows == old(rows)[id := applyUpdate(updateModel, old(rows)[id])]
                && r == ReadModel(id)
                && r == Some(project(Entity(id, applyUpdate(updateModel, old(rows)[id]))))
    {
      // FindAsync
      if id !in rows {
        return None;
      }
      var entity := Entity(id, rows[id]);
      entity := entity.(fields := applyUpdate(updateModel, entity.fields));
      // SaveChangesAsync
      rows := rows[id := entity.fields];
      r := ReadModel(id);
    }

    /**
     * `DeleteModel`: on an absent id nothing is saved and null comes back; otherwise the
     * projection is read before the row is removed and saved, and that projection comes back.
     */
    method DeleteModel(id: int) returns (r: Option<R>)
      requires Valid()
      modifies this
      ensures Valid()
      ensures nextId == old(nextId)
      ensures id !in old(rows) ==> r.None? && rows == old(rows) && order == old(order)
      ensures id in old(rows) ==>
                && r == old(ReadModel(id))
                && rows == old(rows) - {id}
                && order == Without(old(order), id)
                && ReadModel(id).None?
    {
      // FindAsync
      if id !in rows {
        return None;
      }
      r := ReadModel(id);
      // Remove and SaveChangesAsync
      rows := rows - {id};
      order := Without(order, id);
    }
  }
}
