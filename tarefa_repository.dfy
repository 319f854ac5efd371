/**
 * TarefaRepository: the table of tasks behind the JpaRepository interface.
 * The table is a map from id to row, a counter that hands out identity
 * values, and an abstract clock read by the lifecycle hooks. The derived
 * queries are pure filters, sorts and counts over the rows taken in primary
 * key order; save, deleteById and deleteAll change the table.
 */
module Repository {
  import opened Common
  import opened Entity

  /** A stored row: keyed by its own id, satisfying the entity constraints, stamped no later than the clock. */
  ghost predicate Persisted(key: int, v: TarefaValue, clock: nat)
  {
    && v.id == Some(key)
    && EntityConstraints(v)
    && v.dataCriacao.Some? && v.dataAtualizacao.Some?
    && v.dataCriacao.value <= v.dataAtualizacao.value <= clock
  }

  /** Identity values start at 1; every stored id is below the next one to hand out. */
  ghost predicate TableInvariant(rows: map<int, TarefaValue>, nextId: int, clock: nat)
  {
    && 1 <= nextId
    && forall k | k in rows :: 1 <= k < nextId && Persisted(k, rows[k], clock)
  }

  /** Every row sits under its own id. */
  ghost predicate Keyed(rows: map<int, TarefaValue>)
  {
    forall k | k in rows :: rows[k].id == Some(k)
  }

  /** v is the row stored under v's own id. */
  predicate Stored(rows: map<int, TarefaValue>, v: TarefaValue)
  {
    v.id.Some? && v.id.value in rows && rows[v.id.value] == v
  }

  /** The rows whose ids lie in [lo, hi), in increasing id order. */
  function IdOrder(rows: map<int, TarefaValue>, lo: int, hi: int): seq<TarefaValue>
    decreases hi - lo
  {
    if lo >= hi then []
    else (if lo in rows then [rows[lo]] else []) + IdOrder(rows, lo + 1, hi)
  }

  function KeysBetween(rows: map<int, TarefaValue>, lo: int, hi: int): set<int>
  {
    set k | k in rows && lo <= k < hi
  }

  /** IdOrder lists exactly the rows stored under the ids of its range. */
  lemma {:induction false} IdOrderMembers(rows: map<int, TarefaValue>, lo: int, hi: int)
    requires Keyed(rows)
    ensures forall v :: v in IdOrder(rows, lo, hi) <==> Stored(rows, v) && lo <= v.id.value < hi
    decreases hi - lo
  {
    if lo < hi {
      IdOrderMembers(rows, lo + 1, hi);
      var head := if lo in rows then [rows[lo]] else [];
      assert IdOrder(rows, lo, hi) == head + IdOrder(rows, lo + 1, hi);
      forall v ensures v in head <==> Stored(rows, v) && v.id.value == lo {
      }
    }
  }

  /** IdOrder has one element per stored id of its range. */
  lemma {:induction false} IdOrderLength(rows: map<int, TarefaValue>, lo: int, hi: int)
    ensures |IdOrder(rows, lo, hi)| == |KeysBetween(rows, lo, hi)|
    decreases hi - lo
  {
    if lo < hi {
      IdOrderLength(rows, lo + 1, hi);
      var here: set<int> := if lo in rows then {lo} else {};
      assert KeysBetween(rows, lo, hi) == here + KeysBetween(rows, lo + 1, hi);
      assert here !! KeysBetween(rows, lo + 1, hi);
    } else {
      assert KeysBetween(rows, lo, hi) == {};
    }
  }

  /** findByStatus over a list of rows: the rows with that status, in list order. */
  function FilterStatus(xs: seq<TarefaValue>, s: StatusTarefa): (r: seq<TarefaValue>)
    ensures forall v :: v in r <==> v in xs && v.status == Some(s)
    ensures |r| <= |xs|
  {
    if xs == [] then []
    else (if xs[0].status == Some(s) then [xs[0]] else []) + FilterStatus(xs[1..], s)
  }

  /** countByStatus over a list of rows. */
  function CountStatus(xs: seq<TarefaValue>, s: StatusTarefa): nat
  {
    if xs == [] then 0
    else (if xs[0].status == Some(s) then 1 else 0) + CountStatus(xs[1..], s)
  }

  lemma {:induction false} CountStatusIsFilterSize(xs: seq<TarefaValue>, s: StatusTarefa)
    ensures CountStatus(xs, s) == |FilterStatus(xs, s)|
  {
    if xs != [] { CountStatusIsFilterSize(xs[1..], s); }
  }

  /** findByTituloContaining over a list of rows: the rows whose title contains t, in list order. */
  function FilterTitle(xs: seq<TarefaValue>, t: string): (r: seq<TarefaValue>)
    ensures forall v :: v in r <==> v in xs && v.titulo.Some? && Contains(v.titulo.value, t)
    ensures |r| <= |xs|
  {
    if xs == [] then []
    else (if xs[0].titulo.Some? && Contains(xs[0].titulo.value, t) then [xs[0]] else [])
         + FilterTitle(xs[1..], t)
  }

  /** The sort key of ORDER BY dataCriacao; every stored row has one. */
  function CreatedAt(v: TarefaValue): int
  {
    if v.dataCriacao.Some? then v.dataCriacao.value else -1
  }

  /** Each row was created no earlier than the row after it. */
  predicate SortedNewestFirst(xs: seq<TarefaValue>)
  {
    forall i :: 0 < i < |xs| ==> CreatedAt(xs[i - 1]) >= CreatedAt(xs[i])
  }

  function InsertNewestFirst(x: TarefaValue, xs: seq<TarefaValue>): (r: seq<TarefaValue>)
    requires SortedNewestFirst(xs)
    ensures SortedNewestFirst(r)
    ensures multiset(r) == multiset(xs) + multiset{x}
    ensures |r| == |xs| + 1
    ensures r[0] == x || (xs != [] && r[0] == xs[0])
  {
    if xs == [] || CreatedAt(x) >= CreatedAt(xs[0]) then [x] + xs
    else
      var rest := InsertNewestFirst(x, xs[1..]);
      assert xs == [xs[0]] + xs[1..];
      [xs[0]] + rest
  }

  /** ORDER BY dataCriacao DESC: the same rows, newest first. */
  function SortNewestFirst(xs: seq<TarefaValue>): (r: seq<TarefaValue>)
    ensures SortedNewestFirst(r)
    ensures multiset(r) == multiset(xs)
  {
    if xs == [] then []
    else
      assert xs == [xs[0]] + xs[1..];
      InsertNewestFirst(xs[0], SortNewestFirst(xs[1..]))
  }

  /** What save leaves behind: the outcome, the new rows, the new identity counter. */
  datatype Saved = Saved(result: Result<TarefaValue, seq<Violation>>, rows: map<int, TarefaValue>, nextId: int)

  /**
   * save(entity) at time clock. An entity whose id is stored is updated:
   * @PreUpdate refreshes dataAtualizacao, the stored creation time is kept.
   * Any other entity is inserted: @PrePersist stamps both times and the row
   * gets the next identity value. Either way bean validation runs after the
   * hook, and a violation leaves the table as it was.
   */
  function SaveSpec(rows: map<int, TarefaValue>, nextId: int, clock: nat, v: TarefaValue): Saved
  {
    if v.id.Some? && v.id.value in rows then
      var u := Touched(v, clock);
      if !EntityConstraints(u) then Saved(Err(EntityViolations(u)), rows, nextId)
      else
        var row := u.(dataCriacao := rows[v.id.value].dataCriacao);
        Saved(Ok(row), rows[v.id.value := row], nextId)
    else
      var c := Created(v, clock);
      if !EntityConstraints(c) then Saved(Err(EntityViolations(c)), rows, nextId)
      else
        var row := c.(id := Some(nextId));
        Saved(Ok(row), rows[nextId := row], nextId + 1)
  }

  /** Saving keeps every stored row complete, valid, keyed and correctly stamped. */
  lemma SaveKeepsInvariant(rows: map<int, TarefaValue>, nextId: int, clock: nat, v: TarefaValue)
    requires TableInvariant(rows, nextId, clock)
    ensures var s := SaveSpec(rows, nextId, clock, v); TableInvariant(s.rows, s.nextId, clock)
  {
    var s := SaveSpec(rows, nextId, clock, v);
    if s.result.Ok? {
      var key := s.result.value.id.value;
      assert s.rows == rows[key := s.result.value];
      assert Persisted(key, s.result.value, clock);
    }
  }

  /**
   * Saving a new entity assigns the next identity value, which no stored row
   * had; afterwards that id finds exactly the saved row and the other rows
   * are untouched. A violation changes nothing.
   */
  lemma SaveNewAssignsFreshId(rows: map<int, TarefaValue>, nextId: int, clock: nat, v: TarefaValue)
    requires TableInvariant(rows, nextId, clock)
    requires v.id.None?
    ensures var s := SaveSpec(rows, nextId, clock, v);
            && (s.result.Ok? <==> EntityConstraints(v))
            && (s.result.Ok? ==>
                  && s.result.value.id == Some(nextId) && nextId !in rows
                  && s.rows == rows[nextId := s.result.value] && s.nextId == nextId + 1
                  && s.result.value == Created(v, clock).(id := Some(nextId)))
            && (s.result.Err? ==> s.rows == rows && s.nextId == nextId)
  {
    assert EntityConstraints(Created(v, clock)) == EntityConstraints(v);
  }

  /** Saving a stored entity keeps its creation time and the update time becomes the clock. */
  lemma SaveExistingKeepsCreation(rows: map<int, TarefaValue>, nextId: int, clock: nat, v: TarefaValue)
    requires TableInvariant(rows, nextId, clock)
    requires v.id.Some? && v.id.value in rows
    ensures var s := SaveSpec(rows, nextId, clock, v);
            && s.nextId == nextId && s.rows.Keys == rows.Keys
            && (s.result.Ok? <==> EntityConstraints(v))
            && (s.result.Ok? ==>
                  && s.rows[v.id.value].dataCriacao == rows[v.id.value].dataCriacao
                  && s.rows[v.id.value].dataAtualizacao == Some(clock))
  {
    assert EntityConstraints(Touched(v, clock)) == EntityConstraints(v);
  }

  /** Saving a valid entity whose id is stored replaces that row: new update time, stored creation time. */
  lemma SaveValidStored(rows: map<int, TarefaValue>, nextId: int, clock: nat, v: TarefaValue)
    requires v.id.Some? && v.id.value in rows && EntityConstraints(v)
    ensures var row := v.(dataCriacao := rows[v.id.value].dataCriacao, dataAtualizacao := Some(clock));
            SaveSpec(rows, nextId, clock, v) == Saved(Ok(row), rows[v.id.value := row], nextId)
  {
    assert EntityConstraints(Touched(v, clock));
  }

  class TarefaRepository {
    var rows: map<int, TarefaValue>
    var nextId: int
    var clock: nat

    ghost predicate Valid()
      reads this
    {
      TableInvariant(rows, nextId, clock)
    }

    /** An empty table whose first identity value is 1. */
    constructor ()
      ensures Valid() && rows == map[] && nextId == 1 && clock == 0
    {
      rows, nextId, clock := map[], 1, 0;
    }

    /** Time passes; the clock never goes back. */
    method AdvanceClock(elapsed: nat)
      requires Valid()
      modifies this
      ensures Valid() && clock == old(clock) + elapsed
      ensures rows == old(rows) && nextId == old(nextId)
    {
      clock := clock + elapsed;
    }

    function FindById(id: int): Option<TarefaValue>
      reads this
    {
      if id in rows then Some(rows[id]) else None
    }

    function ExistsById(id: int): bool
      reads this
    {
      id in rows
    }

    function Count(): nat
      reads this
    {
      |rows|
    }

    /** findAll: every row, in primary-key order. */
    function FindAll(): seq<TarefaValue>
      reads this
    {
      IdOrder(rows, 1, nextId)
    }

    function FindByStatus(s: StatusTarefa): seq<TarefaValue>
      reads this
    {
      FilterStatus(FindAll(), s)
    }

    function FindByTituloContaining(t: string): seq<TarefaValue>
      reads this
    {
      FilterTitle(FindAll(), t)
    }

    function FindAllByOrderByDataCriacaoDesc(): seq<TarefaValue>
      reads this
    {
      SortNewestFirst(FindAll())
    }

    function CountByStatus(s: StatusTarefa): nat
      reads this
    {
      CountStatus(FindAll(), s)
    }

    /** findAll lists every stored row once: its length is count() and its elements are the rows. */
    lemma FindAllIsTable()
      requires Valid()
      ensures forall v :: v in FindAll() <==> Stored(rows, v)
      ensures |FindAll()| == Count()
    {
      assert Keyed(rows);
      IdOrderMembers(rows, 1, nextId);
      IdOrderLength(rows, 1, nextId);
      assert rows.Keys == KeysBetween(rows, 1, nextId);
    }

    /** findByStatus(s) returns exactly the stored rows with status s, and countByStatus(s) is its size. */
    lemma FindByStatusExact(s: StatusTarefa)
      requires Valid()
      ensures forall v :: v in FindByStatus(s) <==> Stored(rows, v) && v.status == Some(s)
      ensures CountByStatus(s) == |FindByStatus(s)|
    {
      FindAllIsTable();
      CountStatusIsFilterSize(FindAll(), s);
    }

    /** findByTituloContaining(t) returns exactly the stored rows whose title contains t. */
    lemma FindByTituloExact(t: string)
      requires Valid()
      ensures forall v :: v in FindByTituloContaining(t) <==> Stored(rows, v) && v.titulo.Some? && Contains(v.titulo.value, t)
    {
      FindAllIsTable();
    }

    /** The listing newest first is a permutation of all stored rows with non-increasing creation times. */
    lemma OrderedListingIsPermutation()
      requires Valid()
      ensures multiset(FindAllByOrderByDataCriacaoDesc()) == multiset(FindAll())
      ensures |FindAllByOrderByDataCriacaoDesc()| == Count()
      ensures forall v :: v in FindAllByOrderByDataCriacaoDesc() <==> Stored(rows, v)
      ensures forall v :: v in FindAllByOrderByDataCriacaoDesc() ==> v.dataCriacao.Some?
      ensures SortedNewestFirst(FindAllByOrderByDataCriacaoDesc())
    {
      FindAllIsTable();
      var r := FindAllByOrderByDataCriacaoDesc();
      assert |r| == |multiset(r)| == |multiset(FindAll())| == |FindAll()|;
      forall v ensures v in r <==> v in FindAll() {
        assert v in r <==> v in multiset(r);
      }
      forall v | v in r ensures v.dataCriacao.Some? {
        assert v in multiset(r);
        assert v in FindAll();
        assert Persisted(v.id.value, rows[v.id.value], clock);
      }
    }

    /**
     * save(entity): runs the lifecycle hook on the entity, validates it, and on
     * success stores its state, assigning the next id to a new entity.
     */
    method Save(t: Tarefa) returns (r: Result<TarefaValue, seq<Violation>>)
      requires Valid()
      modifies this, t
      ensures Valid() && clock == old(clock)
      ensures Saved(r, rows, nextId) == SaveSpec(old(rows), old(nextId), old(clock), old(t.Value()))
      ensures old(t.id).Some? && old(t.id).value in old(rows) ==> t.Value() == Touched(old(t.Value()), clock)
      ensures !(old(t.id).Some? && old(t.id).value in old(rows)) ==>
                t.Value() == Created(old(t.Value()), clock).(id := if r.Ok? then Some(old(nextId)) else old(t.id))
    {
      SaveKeepsInvariant(rows, nextId, clock, t.Value());
      if t.id.Some? && t.id.value in rows {
        var key := t.id.value;
        t.OnUpdate(clock);
        var violations := EntityViolations(t.Value());
        if violations != [] {
          return Err(violations);
        }
        var row := t.Value().(dataCriacao := rows[key].dataCriacao);
        rows := rows[key := row];
        r := Ok(row);
      } else {
        t.OnCreate(clock);
        var violations := EntityViolations(t.Value());
        if violations != [] {
          return Err(violations);
        }
        t.id := Some(nextId);
        rows := rows[nextId := t.Value()];
        r := Ok(t.Value());
        nextId := nextId + 1;
      }
    }

    /** deleteById: the row with that id, if any, is gone; nothing else changes. */
    method DeleteById(id: int)
      requires Valid()
      modifies this
      ensures Valid()
      ensures rows == old(rows) - {id} && nextId == old(nextId) && clock == old(clock)
      ensures !ExistsById(id) && FindById(id).None?
    {
      rows := rows - {id};
    }

    /** deleteAll: the table is empty and count() is 0; identity values are not reused. */
    method DeleteAll()
      requires Valid()
      modifies this
      ensures Valid()
      ensures rows == map[] && Count() == 0 && nextId == old(nextId) && clock == old(clock)
    {
      rows := map[];
    }
  }
}
