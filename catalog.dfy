/**
 * The local catalog: one table per media kind (repository/MovieRepository.java and
 * repository/SerieRepository.java declare the same finders over the same record shape).
 * The table maps surrogate ids to rows; `save` and `delete` are the inherited JpaRepository
 * operations, the finders are the declared queries.
 */
module Catalog {
  import opened Wrappers
  import opened Seqs
  import opened JavaText
  import opened Failures
  import opened Entities

  /** A row as the table holds it under key `k`, given the clock's current reading. */
  predicate Stored(e: Entity, k: int, clock: nat) {
    && e.id == Some(k)
    && Constraints(e)
    && e.createdAt.Some? && e.updatedAt.Some?
    && e.createdAt.value <= e.updatedAt.value < clock
  }

  /** The unique constraint on tmdb_id: two rows never share a non-null tmdbId. */
  predicate UniqueTmdb(rows: map<int, Entity>) {
    forall a, b | a in rows && b in rows && rows[a].tmdbId.Some? && rows[a].tmdbId == rows[b].tmdbId :: a == b
  }

  /** Identity ids and creation stamps grow together. */
  predicate CreationOrdered(rows: map<int, Entity>) {
    forall a, b | a in rows && b in rows && a < b && rows[a].createdAt.Some? && rows[b].createdAt.Some? ::
      rows[a].createdAt.value < rows[b].createdAt.value
  }

  /** Every element has an id and the ids strictly increase, so no row appears twice. */
  predicate IdsAscending(es: seq<Entity>) {
    && (forall i | 0 <= i < |es| :: es[i].id.Some?)
    && (forall i, j | 0 <= i < j < |es| :: es[i].id.value < es[j].id.value)
  }

  /** `r` holds exactly the rows satisfying `p`, each once, in id order. */
  ghost predicate Selects(rows: map<int, Entity>, r: seq<Entity>, p: Entity -> bool) {
    && IdsAscending(r)
    && (forall i | 0 <= i < |r| :: r[i].id.value in rows && rows[r[i].id.value] == r[i] && p(r[i]))
    && (forall k | k in rows && p(rows[k]) :: rows[k] in r)
  }

  /** The keys of the rows satisfying `p`. */
  ghost function Matching(rows: map<int, Entity>, p: Entity -> bool): set<int> {
    set k | k in rows && p(rows[k])
  }

  /** The ids the elements of `es` carry. */
  ghost function IdSet(es: seq<Entity>): set<int> {
    set i | 0 <= i < |es| && es[i].id.Some? :: es[i].id.value
  }

  /** Strictly increasing ids are all different, so there are as many as elements. */
  lemma {:induction false} AscendingIdCount(es: seq<Entity>)
    requires IdsAscending(es)
    ensures |IdSet(es)| == |es|
  {
    if es != [] {
      var tail := es[1..];
      assert IdsAscending(tail) by {
        assert forall i | 0 <= i < |tail| :: tail[i] == es[i + 1];
      }
      AscendingIdCount(tail);
      assert IdSet(es) == {es[0].id.value} + IdSet(tail) by {
        forall x | x in IdSet(es)
          ensures x == es[0].id.value || x in IdSet(tail)
        {
          var i :| 0 <= i < |es| && es[i].id.Some? && es[i].id.value == x;
          if i > 0 {
            assert tail[i - 1] == es[i];
          }
        }
        forall x | x in IdSet(tail)
          ensures x in IdSet(es)
        {
          var i :| 0 <= i < |tail| && tail[i].id.Some? && tail[i].id.value == x;
          assert es[i + 1] == tail[i];
        }
      }
      assert es[0].id.value !in IdSet(tail) by {
        forall i | 0 <= i < |tail|
          ensures tail[i].id.value != es[0].id.value
        {
          assert tail[i] == es[i + 1];
        }
      }
    }
  }

  /** A selection has one element per row satisfying its filter. */
  lemma SelectedCount(rows: map<int, Entity>, r: seq<Entity>, p: Entity -> bool)
    requires Selects(rows, r, p)
    requires forall k | k in rows :: rows[k].id == Some(k)
    ensures |r| == |Matching(rows, p)|
  {
    AscendingIdCount(r);
    forall k | k in Matching(rows, p)
      ensures k in IdSet(r)
    {
      var i :| 0 <= i < |r| && r[i] == rows[k];
    }
    assert IdSet(r) == Matching(rows, p);
  }

  predicate Any(e: Entity) { true }
  predicate IsWishlisted(e: Entity) { e.wishlist }
  predicate IsWatched(e: Entity) { e.watched }
  predicate IsRated(e: Entity) { e.rating.Some? }

  /** `WHERE tmdbId IN :ids`. */
  function TmdbIdIn(ids: seq<int>): Entity -> bool {
    (e: Entity) => e.tmdbId.Some? && e.tmdbId.value in ids
  }

  /** `WHERE LOWER(title) LIKE LOWER(CONCAT('%', :title, '%'))`; a null parameter makes the
      pattern null, which matches nothing. */
  function TitleLike(title: Option<string>): Entity -> bool {
    (e: Entity) => title.Some? && e.title.Some? && Like(Lower(e.title.value), Lower("%" + title.value + "%"))
  }

  /** For a search text without wildcards, the title finder's filter is a case-insensitive
      substring test on the title. */
  lemma TitleLikeIsCaseInsensitiveSubstring(t: string, e: Entity)
    requires NoWildcards(t)
    ensures TitleLike(Some(t))(e) <==> e.title.Some? && IsSubstring(Lower(t), Lower(e.title.value))
  {
    assert Lower("%" + t + "%") == "%" + Lower(t) + "%";
    assert NoWildcards(Lower(t));
    if e.title.Some? {
      LikeContains(Lower(e.title.value), Lower(t));
    }
  }

  /** The keys of `rows` below `n`, ascending. */
  function KeysBelow(rows: map<int, Entity>, n: nat): (ks: seq<int>)
    ensures forall i, j | 0 <= i < j < |ks| :: ks[i] < ks[j]
    ensures forall i | 0 <= i < |ks| :: ks[i] in rows && 0 <= ks[i] < n
    ensures forall k | k in rows && 0 <= k < n :: k in ks
  {
    if n == 0 then []
    else
      var front := KeysBelow(rows, n - 1);
      var ks := front + (if n - 1 in rows then [n - 1] else []);
      assert forall i | 0 <= i < |front| :: ks[i] == front[i];
      ks
  }

  function Project(rows: map<int, Entity>, ks: seq<int>): (es: seq<Entity>)
    requires forall i | 0 <= i < |ks| :: ks[i] in rows
    ensures |es| == |ks| && forall i | 0 <= i < |ks| :: es[i] == rows[ks[i]]
  {
    seq(|ks|, i requires 0 <= i < |ks| && ks[i] in rows => rows[ks[i]])
  }

  /** The table's invariant: ids below the identity counter, each row stored under its own
      id with valid columns and past timestamps, tmdbIds unique, creation stamps in id order. */
  ghost predicate ValidRows(rows: map<int, Entity>, nextId: nat, clock: nat) {
    && nextId >= 1
    && (forall k | k in rows :: 1 <= k < nextId && Stored(rows[k], k, clock))
    && UniqueTmdb(rows)
    && CreationOrdered(rows)
  }

  /** Listing the keys in order lists every row once, in id order. */
  lemma RowsSelectAll(rows: map<int, Entity>, nextId: nat)
    requires forall k | k in rows :: 0 <= k < nextId && rows[k].id == Some(k)
    ensures Selects(rows, Project(rows, KeysBelow(rows, nextId)), Any)
  {
    var ks := KeysBelow(rows, nextId);
    var r := Project(rows, ks);
    forall i | 0 <= i < |r|
      ensures r[i].id == Some(ks[i])
    {
      assert r[i] == rows[ks[i]];
    }
    forall i, j | 0 <= i < j < |r|
      ensures r[i].id.value < r[j].id.value
    {
      assert r[i].id.value == ks[i] && r[j].id.value == ks[j];
    }
    forall i | 0 <= i < |r|
      ensures r[i].id.value in rows && rows[r[i].id.value] == r[i] && Any(r[i])
    {
      assert r[i] == rows[ks[i]] && r[i].id.value == ks[i];
    }
    forall k | k in rows
      ensures rows[k] in r
    {
      assert k in ks;
      var i :| 0 <= i < |ks| && ks[i] == k;
      assert r[i] == rows[k];
    }
  }

  /** Reversing the rows in id order lists them newest first. */
  lemma NewestFirst(rows: map<int, Entity>, s: seq<Entity>)
    requires Selects(rows, s, Any)
    requires CreationOrdered(rows)
    requires forall k | k in rows :: rows[k].createdAt.Some?
    ensures var r := Reverse(s);
      && (forall k | k in rows :: rows[k] in r)
      && (forall i, j | 0 <= i < j < |r| ::
            r[i].createdAt.Some? && r[j].createdAt.Some? && r[i].createdAt.value > r[j].createdAt.value)
      && (forall i, j | 0 <= i < j < |r| :: r[i].id.Some? && r[j].id.Some? && r[i].id.value > r[j].id.value)
  {
    var r := Reverse(s);
    forall k | k in rows
      ensures rows[k] in r
    {
      var i :| 0 <= i < |s| && s[i] == rows[k];
      assert r[|s| - 1 - i] == rows[k];
    }
    forall i, j | 0 <= i < j < |r|
      ensures r[i].createdAt.Some? && r[j].createdAt.Some? && r[i].createdAt.value > r[j].createdAt.value
      ensures r[i].id.Some? && r[j].id.Some? && r[i].id.value > r[j].id.value
    {
      var a, b := s[|s| - 1 - j].id.value, s[|s| - 1 - i].id.value;
      assert a < b;
      assert rows[a] == r[j] && rows[b] == r[i];
    }
  }

  /** Filtering a selection of all rows selects the rows satisfying the filter. */
  lemma {:induction false} FilterSelects(rows: map<int, Entity>, s: seq<Entity>, p: Entity -> bool)
    requires Selects(rows, s, Any)
    ensures Selects(rows, Filter(s, p), p)
  {
    FilterKeepsIdsAscending(s, p);
    var f := Filter(s, p);
    forall i | 0 <= i < |f|
      ensures f[i].id.value in rows && rows[f[i].id.value] == f[i] && p(f[i])
    {
      assert f[i] in f;
      var j :| 0 <= j < |s| && s[j] == f[i];
    }
    forall k | k in rows && p(rows[k])
      ensures rows[k] in f
    {
      assert Any(rows[k]);
    }
  }

  lemma {:induction false} FilterKeepsIdsAscending(s: seq<Entity>, p: Entity -> bool)
    requires IdsAscending(s)
    ensures IdsAscending(Filter(s, p))
  {
    if s != [] {
      var tail := s[1..];
      assert IdsAscending(tail) by {
        assert forall i | 0 <= i < |tail| :: tail[i] == s[i + 1];
      }
      FilterKeepsIdsAscending(tail, p);
      var ft := Filter(tail, p);
      if p(s[0]) {
        forall y | y in ft
          ensures y.id.Some? && s[0].id.value < y.id.value
        {
          var k :| 0 <= k < |tail| && tail[k] == y;
          assert y == s[k + 1];
        }
        ConsAscending(s[0], ft);
        assert Filter(s, p) == [s[0]] + ft;
      } else {
        assert Filter(s, p) == ft;
      }
    }
  }

  lemma ConsAscending(x: Entity, es: seq<Entity>)
    requires IdsAscending(es) && x.id.Some?
    requires forall y | y in es :: y.id.Some? && x.id.value < y.id.value
    ensures IdsAscending([x] + es)
  {
    var r := [x] + es;
    forall i, j | 0 <= i < j < |r|
      ensures r[i].id.value < r[j].id.value
    {
      assert r[j] == es[j - 1] && r[j] in es;
      if i > 0 {
        assert r[i] == es[i - 1];
      }
    }
  }

  /** Storing `e` would give a second row the same non-null tmdbId. */
  predicate TmdbClash(rows: map<int, Entity>, e: Entity) {
    e.tmdbId.Some? && exists k | k in rows :: rows[k].tmdbId == e.tmdbId && e.id != Some(k)
  }

  /** `save` persists an entity without an id, or whose id names no row. */
  predicate IsNew(rows: map<int, Entity>, e: Entity) {
    e.id.None? || e.id.value !in rows
  }

  /** An inserted row: the identity id and both timestamps set at insert. */
  function Stamped(e: Entity, id: int, now: nat): (s: Entity)
    ensures SameColumns(s, e)
    ensures s.id == Some(id) && s.createdAt == Some(now) && s.updatedAt == Some(now)
  {
    e.(id := Some(id), createdAt := Some(now), updatedAt := Some(now))
  }

  /** An updated row: created_at is not updatable, updated_at moves only when a column changed. */
  function Merged(stored: Entity, e: Entity, now: nat): (m: Entity)
    ensures SameColumns(m, e) && m.id == e.id && m.createdAt == stored.createdAt
    ensures SameColumns(stored, e) ==> m.updatedAt == stored.updatedAt
    ensures !SameColumns(stored, e) ==> m.updatedAt == Some(now)
  {
    e.(createdAt := stored.createdAt,
       updatedAt := if SameColumns(stored, e) then stored.updatedAt else Some(now))
  }

  /** With unique tmdbIds, selecting the rows whose tmdbId is in `[x]` yields at most the one
      row carrying `x`. */
  lemma TmdbHits(rows: map<int, Entity>, hits: seq<Entity>, x: int)
    requires Selects(rows, hits, TmdbIdIn([x]))
    requires UniqueTmdb(rows)
    ensures hits != [] ==> hits[0].tmdbId == Some(x) && hits[0].id.Some?
                           && hits[0].id.value in rows && rows[hits[0].id.value] == hits[0]
    ensures hits == [] ==> forall k | k in rows :: rows[k].tmdbId != Some(x)
    ensures forall k | k in rows && rows[k].tmdbId == Some(x) :: hits != [] && hits[0] == rows[k]
  {
    forall k | k in rows && rows[k].tmdbId == Some(x)
      ensures hits != [] && hits[0] == rows[k]
    {
      assert TmdbIdIn([x])(rows[k]);
      assert rows[k] in hits;
      var j := hits[0].id.value;
      assert TmdbIdIn([x])(hits[0]);
      assert rows[j].tmdbId == Some(x);
    }
    if hits != [] {
      assert TmdbIdIn([x])(hits[0]);
    }
  }

  /** Inserting a valid, non-clashing entity under the next id at the current clock keeps the
      invariant once both counters advance. */
  lemma InsertKeepsValid(rows: map<int, Entity>, nextId: nat, clock: nat, e: Entity)
    requires ValidRows(rows, nextId, clock)
    requires Constraints(e) && !TmdbClash(rows, e) && IsNew(rows, e)
    ensures nextId !in rows
    ensures ValidRows(rows[nextId := Stamped(e, nextId, clock)], nextId + 1, clock + 1)
  {
    var s := Stamped(e, nextId, clock);
    assert forall b | b in rows && b != nextId && s.tmdbId.Some? :: rows[b].tmdbId != s.tmdbId;
    PutKeepsUnique(rows, nextId, s);
  }

  /** Putting a row whose tmdbId no other row carries keeps tmdbIds unique. */
  lemma PutKeepsUnique(rows: map<int, Entity>, k: int, m: Entity)
    requires UniqueTmdb(rows)
    requires forall b | b in rows && b != k && m.tmdbId.Some? :: rows[b].tmdbId != m.tmdbId
    ensures UniqueTmdb(rows[k := m])
  {
    var rows' := rows[k := m];
    forall a, b | a in rows' && b in rows' && a != b && rows'[a].tmdbId.Some?
      ensures rows'[a].tmdbId != rows'[b].tmdbId
    {
      if a != k && b != k {
        assert rows'[a] == rows[a] && rows'[b] == rows[b];
      } else if a == k {
        assert rows'[b] == rows[b];
      } else {
        assert rows'[a] == rows[a];
      }
    }
  }

  /** Replacing a stored row by a valid, non-clashing version keeps the invariant. */
  lemma MergeKeepsValid(rows: map<int, Entity>, nextId: nat, clock: nat, e: Entity)
    requires ValidRows(rows, nextId, clock)
    requires Constraints(e) && !TmdbClash(rows, e) && !IsNew(rows, e)
    ensures ValidRows(rows[e.id.value := Merged(rows[e.id.value], e, clock)], nextId, clock + 1)
  {
    var k := e.id.value;
    var m := Merged(rows[k], e, clock);
    MergeKeepsRowsStored(rows, nextId, clock, k, m);
    assert forall b | b in rows && b != k && m.tmdbId.Some? :: rows[b].tmdbId != m.tmdbId;
    PutKeepsUnique(rows, k, m);
    MergeKeepsCreationOrder(rows, k, m);
  }

  lemma MergeKeepsRowsStored(rows: map<int, Entity>, nextId: nat, clock: nat, k: int, m: Entity)
    requires forall a | a in rows :: 1 <= a < nextId && Stored(rows[a], a, clock)
    requires k in rows && m.id == Some(k) && Constraints(m) && m.createdAt == rows[k].createdAt
    requires m.updatedAt == rows[k].updatedAt || m.updatedAt == Some(clock)
    ensures var rows' := rows[k := m];
            forall a | a in rows' :: 1 <= a < nextId && Stored(rows'[a], a, clock + 1)
  {
    var rows' := rows[k := m];
    forall a | a in rows'
      ensures 1 <= a < nextId && Stored(rows'[a], a, clock + 1)
    {
      if a == k {
        assert Stored(rows[k], k, clock);
        assert rows'[a] == m;
      } else {
        assert rows'[a] == rows[a] && Stored(rows[a], a, clock);
      }
    }
  }

  lemma MergeKeepsCreationOrder(rows: map<int, Entity>, k: int, m: Entity)
    requires CreationOrdered(rows) && k in rows && m.createdAt == rows[k].createdAt
    ensures CreationOrdered(rows[k := m])
  {
    var rows' := rows[k := m];
    assert forall a | a in rows' :: rows'[a].createdAt == rows[a].createdAt;
  }

  class Table {
    var rows: map<int, Entity>
    /** The next identity value. */
    var nextId: nat
    /** The clock behind @CreationTimestamp and @UpdateTimestamp, read once per save. */
    var clock: nat

    ghost predicate Valid()
      reads this
    {
      ValidRows(rows, nextId, clock)
    }

    constructor()
      ensures Valid() && rows == map[] && nextId == 1 && clock == 0
    {
      rows := map[];
      nextId := 1;
      clock := 0;
    }

    /** All rows in id order. */
    function Rows(): (r: seq<Entity>)
      reads this
      requires Valid()
      ensures Selects(rows, r, Any)
    {
      RowsSelectAll(rows, nextId);
      Project(rows, KeysBelow(rows, nextId))
    }

    /** The rows satisfying `p`, in id order. */
    function Where(p: Entity -> bool): (r: seq<Entity>)
      reads this
      requires Valid()
      ensures Selects(rows, r, p)
    {
      FilterSelects(rows, Rows(), p);
      Filter(Rows(), p)
    }

    /** `findById`. */
    function FindById(id: int): (r: Option<Entity>)
      reads this
      requires Valid()
      ensures r.Some? <==> id in rows
      ensures r.Some? ==> r.value == rows[id] && r.value.id == Some(id) && Constraints(r.value)
    {
      if id in rows then Some(rows[id]) else None
    }

    /** `findByTmdbId`: the one row with that tmdbId, if any. */
    function FindByTmdbId(tmdbId: int): (r: Option<Entity>)
      reads this
      requires Valid()
      ensures r.Some? ==> r.value.tmdbId == Some(tmdbId) && r.value.id.Some?
                          && r.value.id.value in rows && rows[r.value.id.value] == r.value
      ensures r.None? ==> forall k | k in rows :: rows[k].tmdbId != Some(tmdbId)
      ensures forall k | k in rows && rows[k].tmdbId == Some(tmdbId) :: r == Some(rows[k])
    {
      var hits := Where(TmdbIdIn([tmdbId]));
      TmdbHits(rows, hits, tmdbId);
      if hits == [] then None else Some(hits[0])
    }

    /** `existsByTmdbId` agrees with `findByTmdbId`. */
    function ExistsByTmdbId(tmdbId: int): (b: bool)
      reads this
      requires Valid()
      ensures b <==> FindByTmdbId(tmdbId).Some?
    {
      var found := FindByTmdbId(tmdbId);
      assert found.Some? ==> rows[found.value.id.value].tmdbId == Some(tmdbId);
      exists k | k in rows :: rows[k].tmdbId == Some(tmdbId)
    }

    function FindByWishlistTrue(): (r: seq<Entity>)
      reads this
      requires Valid()
      ensures Selects(rows, r, IsWishlisted)
    {
      Where(IsWishlisted)
    }

    function FindByWatchedTrue(): (r: seq<Entity>)
      reads this
      requires Valid()
      ensures Selects(rows, r, IsWatched)
    {
      Where(IsWatched)
    }

    function FindByRatingIsNotNull(): (r: seq<Entity>)
      reads this
      requires Valid()
      ensures Selects(rows, r, IsRated)
    {
      Where(IsRated)
    }

    function FindByTmdbIdIn(ids: seq<int>): (r: seq<Entity>)
      reads this
      requires Valid()
      ensures Selects(rows, r, TmdbIdIn(ids))
    {
      Where(TmdbIdIn(ids))
    }

    function FindByTitleContainingIgnoreCase(title: Option<string>): (r: seq<Entity>)
      reads this
      requires Valid()
      ensures Selects(rows, r, TitleLike(title))
      ensures title.None? ==> r == []
    {
      FilterAllOrNone(Rows(), TitleLike(title));
      Where(TitleLike(title))
    }

    /** `findAllByOrderByCreatedAtDesc`: every row once, newest first. */
    function FindAllByOrderByCreatedAtDesc(): (r: seq<Entity>)
      reads this
      requires Valid()
      ensures forall i | 0 <= i < |r| :: r[i].id.Some? && r[i].id.value in rows && rows[r[i].id.value] == r[i]
      ensures forall k | k in rows :: rows[k] in r
      ensures forall i, j | 0 <= i < j < |r| ::
                r[i].createdAt.Some? && r[j].createdAt.Some? && r[i].createdAt.value > r[j].createdAt.value
      ensures forall i, j | 0 <= i < j < |r| :: r[i].id.value > r[j].id.value
    {
      NewestFirst(rows, Rows());
      Reverse(Rows())
    }

    /**
     * `save`: the entity's constraints and the unique tmdb_id are checked first, and a failed
     * save changes nothing. A new entity is inserted under the next identity value with both
     * timestamps set; a known one replaces its row, keeping created_at.
     */
    method Save(e: Entity) returns (r: Result<Entity>)
      requires Valid()
      modifies this
      ensures Valid()
      ensures !Constraints(e) ==> r == Err(Internal(ConstraintViolation))
      ensures Constraints(e) && TmdbClash(old(rows), e) ==> r == Err(Internal(DuplicateTmdbId))
      ensures r.Ok? <==> Constraints(e) && !TmdbClash(old(rows), e)
      ensures r.Err? ==> rows == old(rows) && nextId == old(nextId) && clock == old(clock)
      ensures r.Ok? && IsNew(old(rows), e) ==>
                && r.value == Stamped(e, old(nextId), old(clock))
                && old(nextId) !in old(rows)
                && rows == old(rows)[old(nextId) := r.value]
                && nextId == old(nextId) + 1
      ensures r.Ok? && !IsNew(old(rows), e) ==>
                && r.value == Merged(old(rows)[e.id.value], e, old(clock))
                && rows == old(rows)[e.id.value := r.value]
                && nextId == old(nextId)
      ensures r.Ok? ==> clock == old(clock) + 1
    {
      if !Constraints(e) {
        return Err(Internal(ConstraintViolation));
      }
      if TmdbClash(rows, e) {
        return Err(Internal(DuplicateTmdbId));
      }
      if IsNew(rows, e) {
        InsertKeepsValid(rows, nextId, clock, e);
        var saved := Stamped(e, nextId, clock);
        rows, nextId, clock := rows[nextId := saved], nextId + 1, clock + 1;
        return Ok(saved);
      }
      MergeKeepsValid(rows, nextId, clock, e);
      var saved := Merged(rows[e.id.value], e, clock);
      rows, clock := rows[e.id.value := saved], clock + 1;
      return Ok(saved);
    }

    /** `delete`: removes the row with the entity's id; an entity without one is ignored. */
    method Delete(e: Entity)
      requires Valid()
      modifies this
      ensures Valid()
      ensures e.id.Some? ==> rows == old(rows) - {e.id.value}
      ensures e.id.None? ==> rows == old(rows)
      ensures nextId == old(nextId) && clock == old(clock)
    {
      if e.id.Some? {
        rows := rows - {e.id.value};
      }
    }
  }
}
