/**
 * What MovieService and SerieService share: the search envelope, the query trim, `limit` on
 * the Provider's results, the one bulk lookup of the stored records (`findByTmdbIdIn` then
 * `Collectors.toMap`) and the `existingMap.get(id)` that tags each result; and the facts
 * about the store that their upsert and update rest on.
 */
module ServiceSupport {
  import opened Wrappers
  import opened Seqs
  import opened JavaText
  import opened Failures
  import opened Entities
  import opened Catalog
  import opened Dtos
  import opened Reconcile

  /** The search answer: `query`, `limit`, `total` and `results`. */
  datatype Envelope<T> = Envelope(query: string, limit: int, total: int, results: seq<T>)

  /** `query != null ? query.trim() : ""`. */
  function TrimmedQuery(query: Option<string>): (q: string)
    ensures query.None? ==> q == ""
    ensures query.Some? ==> q == Trim(query.value)
    ensures q == [] <==> query.None? || forall i | 0 <= i < |query.value| :: query.value[i] <= ' '
  {
    if query.Some? then Trim(query.value) else ""
  }

  /** `stream().limit(n)`: a negative n throws IllegalArgumentException whose message is n. */
  function Limit<T>(s: seq<T>, n: int): (r: Result<seq<T>>)
    ensures r.Err? <==> n < 0
    ensures r.Err? ==> r.error == IllegalArgument(Decimal(n))
    ensures r.Ok? ==> |r.value| == Min(n, |s|) && r.value == s[..|r.value|]
  {
    if n < 0 then Err(IllegalArgument(Decimal(n))) else Ok(Take(s, n))
  }

  /** `.map(getId).filter(Objects::nonNull)`: the non-null ids, in order. */
  function NonNullIds(ids: seq<Option<int>>): (r: seq<int>)
    ensures |r| <= |ids|
    ensures forall x :: x in r <==> Some(x) in ids
  {
    if ids == [] then []
    else (if ids[0].Some? then [ids[0].value] else []) + NonNullIds(ids[1..])
  }

  /** No two records of `es` carry the same tmdbId (null counts as a key). */
  predicate DistinctTmdbIds(es: seq<Entity>) {
    forall i, j | 0 <= i < j < |es| :: es[i].tmdbId != es[j].tmdbId
  }

  /** `collect(Collectors.toMap(getTmdbId, identity()))`: each record under its tmdbId; a key
      seen twice throws IllegalStateException. */
  function ToMapByTmdbId(es: seq<Entity>): (r: Result<map<Option<int>, Entity>>)
    ensures r.Ok? <==> DistinctTmdbIds(es)
    ensures r.Err? ==> r.error == Internal(DuplicateMapKey)
    ensures r.Ok? ==> forall i | 0 <= i < |es| :: es[i].tmdbId in r.value && r.value[es[i].tmdbId] == es[i]
    ensures r.Ok? ==> forall k | k in r.value :: r.value[k] in es && r.value[k].tmdbId == k
  {
    if es == [] then Ok(map[])
    else
      var front, last := es[..|es| - 1], es[|es| - 1];
      assert forall i | 0 <= i < |front| :: front[i] == es[i];
      match ToMapByTmdbId(front)
      case Err(f) => Err(f)
      case Ok(m) =>
        if last.tmdbId in m then
          assert m[last.tmdbId] in front;
          var j :| 0 <= j < |front| && front[j] == m[last.tmdbId];
          assert es[j].tmdbId == es[|es| - 1].tmdbId;
          Err(Internal(DuplicateMapKey))
        else
          Ok(m[last.tmdbId := last])
  }

  /** `existingMap.get(id)`: null for a key the map lacks. */
  function LocalOf(m: map<Option<int>, Entity>, id: Option<int>): Option<Entity> {
    if id in m then Some(m[id]) else None
  }

  /** The stored records found by one bulk lookup of the non-null ids. */
  function Existing(t: Table, ids: seq<Option<int>>): seq<Entity>
    reads t
    requires t.Valid()
  {
    t.FindByTmdbIdIn(NonNullIds(ids))
  }

  /**
   * The bulk lookup never meets a repeated key, and tagging a result through the map gives
   * what `findByTmdbId` would give for its id: the stored record, or null when none is stored
   * or the id is null.
   */
  lemma BulkLookupAgreesWithFinder(t: Table, ids: seq<Option<int>>)
    requires t.Valid()
    ensures ToMapByTmdbId(Existing(t, ids)).Ok?
    ensures var m := ToMapByTmdbId(Existing(t, ids)).value;
            forall i | 0 <= i < |ids| ::
              LocalOf(m, ids[i]) == (if ids[i].Some? then t.FindByTmdbId(ids[i].value) else None)
  {
    var keep := TmdbIdIn(NonNullIds(ids));
    var es := Existing(t, ids);
    assert Selects(t.rows, es, keep);
    forall i, j | 0 <= i < j < |es|
      ensures es[i].tmdbId != es[j].tmdbId
    {
      assert keep(es[i]) && keep(es[j]);
      assert es[i].id.value != es[j].id.value;
    }
    var m := ToMapByTmdbId(es).value;
    forall i | 0 <= i < |ids|
      ensures LocalOf(m, ids[i]) == (if ids[i].Some? then t.FindByTmdbId(ids[i].value) else None)
    {
      var id := ids[i];
      if id in m {
        assert keep(m[id]);
      }
      if id.Some? {
        var x := id.value;
        assert x in NonNullIds(ids);
        var found := t.FindByTmdbId(x);
        if found.Some? {
          var k := found.value.id.value;
          assert keep(t.rows[k]);
          assert t.rows[k] in es;
        }
      }
    }
  }

  /** What `findByTmdbId` gives for a possibly null id: nothing for null. */
  function LocalFor(t: Table, id: Option<int>): (r: Option<Entity>)
    reads t
    requires t.Valid()
    ensures id.None? ==> r.None?
    ensures r.Some? ==> r.value.tmdbId == id && r.value.id.Some? && r.value.id.value in t.rows
                        && t.rows[r.value.id.value] == r.value
    ensures id.Some? && r.None? ==> forall k | k in t.rows :: t.rows[k].tmdbId != id
  {
    if id.Some? then t.FindByTmdbId(id.value) else None
  }

  /** The `existingMap.get(id)` of every result, keyed by the result's `idOf`: one bulk
      lookup, then one map read each. */
  function Locals<R>(t: Table, found: seq<R>, idOf: R -> Option<int>): (ls: seq<Option<Entity>>)
    reads t
    requires t.Valid()
    ensures |ls| == |found| && forall i | 0 <= i < |found| :: ls[i] == LocalFor(t, idOf(found[i]))
  {
    var ids := seq(|found|, i requires 0 <= i < |found| => idOf(found[i]));
    BulkLookupAgreesWithFinder(t, ids);
    var m := ToMapByTmdbId(Existing(t, ids)).value;
    seq(|found|, i requires 0 <= i < |found| => LocalOf(m, ids[i]))
  }

  /** Saving a stored row again under its own id and tmdbId is an update that cannot clash. */
  lemma SameKeysNoClash(rows: map<int, Entity>, nextId: nat, clock: nat, k: int, e: Entity)
    requires ValidRows(rows, nextId, clock)
    requires k in rows && e.id == rows[k].id && e.tmdbId == rows[k].tmdbId
    ensures !IsNew(rows, e) && e.id.value == k
    ensures !TmdbClash(rows, e)
  {
    if e.tmdbId.Some? {
      forall b | b in rows && rows[b].tmdbId == e.tmdbId
        ensures e.id == Some(b)
      {
        assert rows[b].tmdbId == rows[k].tmdbId;
      }
    }
  }

  /** Putting back the value a key already has leaves the map as it is. */
  lemma PutBack<K, V>(m: map<K, V>, k: K, v: V)
    requires k in m && m[k] == v
    ensures m[k := v] == m
  {
  }

  /** A second upsert of the same command finds the row the first one saved and saves it
      again unchanged: the overlay fixes it and the merge keeps its timestamps. */
  lemma RepeatedUpsertIsFixed(saved: Entity, d: CreateFromTmdbDto, s: Entity, title: Option<string>, now: nat)
    requires SameColumns(saved, OverlayFromTmdb(s, d)) || SameColumns(saved, FreshFromTmdb(d, title))
    ensures OverlayFromTmdb(saved, d) == saved
    ensures Merged(saved, OverlayFromTmdb(saved, d), now) == saved
  {
    if SameColumns(saved, OverlayFromTmdb(s, d)) {
      OverlayFromTmdbIdempotent(s, d);
    } else {
      OverlayFixesFresh(saved, d, title);
    }
  }
}
