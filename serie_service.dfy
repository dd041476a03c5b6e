/**
 * SerieService: the series catalog's operations. The commands are those of MovieService over
 * series details; the queries build their answers with `Map.of`, which refuses null values
 * and cannot be added to, and that decides what they return.
 */
module SerieService {
  import opened Wrappers
  import opened Seqs
  import opened JavaText
  import opened Failures
  import opened ResourceNotFound
  import opened Tmdb
  import opened Entities
  import opened Dtos
  import opened Catalog
  import opened Reconcile
  import opened ServiceSupport

  /** The resource type named in this service's not-found messages. */
  const Label := "Série"

  /** `create`: the seven-argument record, saved. */
  method Create(t: Table, d: CreateDto) returns (r: Result<Entity>)
    requires t.Valid()
    modifies t
    ensures t.Valid()
    ensures var e := AllArgs(d.title, d.tmdbId, d.rating, d.wishlist, d.review, d.viewCount, d.watched);
            && (r.Ok? <==> Constraints(e) && !TmdbClash(old(t.rows), e))
            && (r.Ok? ==> && r.value == Stamped(e, old(t.nextId), old(t.clock))
                          && t.rows == old(t.rows)[old(t.nextId) := r.value])
    ensures ValidCreateDto(d) && (d.tmdbId.None? || !old(t.ExistsByTmdbId(d.tmdbId.value))) ==> r.Ok?
    ensures r.Err? ==> t.rows == old(t.rows)
  {
    var e := AllArgs(d.title, d.tmdbId, d.rating, d.wishlist, d.review, d.viewCount, d.watched);
    if ValidCreateDto(d) {
      ValidCreateDtoBuildsValidEntity(d);
    }
    r := t.Save(e);
  }

  /**
   * `createFromTmdb`: the Provider's series detail is fetched first and a failure there
   * aborts. A row with the command's tmdbId is overlaid and saved again; otherwise a new
   * record is built, titled by the override or the series' name, and saved.
   */
  method CreateFromTmdb(t: Table, p: Provider, d: CreateFromTmdbDto) returns (r: Result<Entity>)
    requires t.Valid() && d.tmdbId.Some?
    modifies t
    ensures t.Valid()
    ensures SerieDetails(p, d.tmdbId.value).Err? ==> r == Err(SerieDetails(p, d.tmdbId.value).error)
    ensures r.Err? ==> t.rows == old(t.rows) && t.nextId == old(t.nextId)
    ensures var found := old(t.FindByTmdbId(d.tmdbId.value));
            found.Some? && SerieDetails(p, d.tmdbId.value).Ok? ==>
              var e := OverlayFromTmdb(found.value, d);
              && (r.Ok? <==> Constraints(e))
              && (r.Ok? ==> && r.value == Merged(found.value, e, old(t.clock))
                            && t.rows == old(t.rows)[found.value.id.value := r.value])
    ensures var found := old(t.FindByTmdbId(d.tmdbId.value));
            found.None? && SerieDetails(p, d.tmdbId.value).Ok? ==>
              var e := FreshFromTmdb(d, SerieDetails(p, d.tmdbId.value).value.name);
              && (r.Ok? <==> Constraints(e))
              && (r.Ok? ==> && r.value == Stamped(e, old(t.nextId), old(t.clock))
                            && t.rows == old(t.rows)[old(t.nextId) := r.value])
    ensures r.Ok? ==> t.FindByTmdbId(d.tmdbId.value) == Some(r.value)
  {
    var x := d.tmdbId.value;
    var detail := SerieDetails(p, x);
    if detail.Err? {
      return Err(detail.error);
    }
    var found := t.FindByTmdbId(x);
    if found.Some? {
      var e := ApplyFromTmdbDto(found.value, d);
      SameKeysNoClash(t.rows, t.nextId, t.clock, found.value.id.value, e);
      r := t.Save(e);
    } else {
      var e := FreshFromTmdb(d, detail.value.name);
      r := t.Save(e);
    }
    if r.Ok? {
      assert r.value.id.value in t.rows && t.rows[r.value.id.value] == r.value;
    }
  }

  /** Repeating an upsert that succeeded, against a Provider that may answer differently the
      second time: the first call stores its record under the record's id, and the second
      stores nothing new and returns the same record unless its own fetch fails. */
  method CreateFromTmdbTwice(t: Table, p1: Provider, p2: Provider, d: CreateFromTmdbDto)
      returns (first: Result<Entity>, second: Result<Entity>)
    requires t.Valid() && d.tmdbId.Some?
    modifies t
    ensures t.Valid()
    ensures first.Ok? ==> && first.value.id.Some?
                          && t.rows == old(t.rows)[first.value.id.value := first.value]
    ensures first.Ok? ==> t.FindByTmdbId(d.tmdbId.value) == Some(first.value)
    ensures first.Ok? && SerieDetails(p2, d.tmdbId.value).Ok? ==> second == first
    ensures first.Ok? && SerieDetails(p2, d.tmdbId.value).Err? ==>
              second == Err(SerieDetails(p2, d.tmdbId.value).error)
  {
    var x := d.tmdbId.value;
    ghost var before := t.rows;
    ghost var found := t.FindByTmdbId(x);
    first := CreateFromTmdb(t, p1, d);
    ghost var between := t.rows;
    if first.Ok? {
      assert between == before[first.value.id.value := first.value];
      var title := SerieDetails(p1, x).value.name;
      RepeatedUpsertIsFixed(first.value, d, found.GetOr(first.value), title, t.clock);
      assert first.value.id.value in between && between[first.value.id.value] == first.value;
    }
    second := CreateFromTmdb(t, p2, d);
    if first.Ok? && second.Ok? {
      var k := first.value.id.value;
      assert second == Ok(first.value);
      assert t.rows == between[k := first.value];
      PutBack(between, k, first.value);
    }
  }

  /** `update`: an unknown id is a not-found failure; otherwise the update is overlaid and saved. */
  method Update(t: Table, id: int, d: UpdateDto) returns (r: Result<Entity>)
    requires t.Valid()
    modifies t
    ensures t.Valid()
    ensures id !in old(t.rows) ==> r == Err(ById(Label, id))
    ensures id in old(t.rows) ==>
              var e := OverlayUpdate(old(t.rows)[id], d);
              && (r.Ok? <==> Constraints(e) && !TmdbClash(old(t.rows), e))
              && (r.Ok? ==> && r.value == Merged(old(t.rows)[id], e, old(t.clock))
                            && t.rows == old(t.rows)[id := r.value])
    ensures r.Err? ==> t.rows == old(t.rows)
    ensures t.nextId == old(t.nextId)
  {
    var stored := t.FindById(id);
    if stored.None? {
      return Err(ById(Label, id));
    }
    var e := ApplyUpdateDto(stored.value, d);
    r := t.Save(e);
  }

  /** `remove`: an unknown id is a not-found failure; otherwise the row is deleted and returned. */
  method Remove(t: Table, id: int) returns (r: Result<Entity>)
    requires t.Valid()
    modifies t
    ensures t.Valid()
    ensures id !in old(t.rows) ==> r == Err(ById(Label, id)) && t.rows == old(t.rows)
    ensures id in old(t.rows) ==> r == Ok(old(t.rows)[id]) && t.rows == old(t.rows) - {id}
    ensures t.nextId == old(t.nextId) && t.clock == old(t.clock)
  {
    var stored := t.FindById(id);
    if stored.None? {
      return Err(ById(Label, id));
    }
    t.Delete(stored.value);
    r := Ok(stored.value);
  }

  /** Every value `convertSerieToMap` puts into its `Map.of` is non-null. */
  predicate Complete(e: Entity) {
    && e.id.Some? && e.title.Some? && e.tmdbId.Some? && e.rating.Some?
    && e.createdAt.Some? && e.updatedAt.Some?
  }

  /** `convertSerieToMap`: the projection, or a NullPointerException for any null column. */
  function ConvertSerieToMap(e: Entity): (r: Result<Projection>)
    ensures r.Ok? <==> Complete(e)
    ensures r.Err? ==> r.error == Internal(NullValue)
    ensures r.Ok? ==> r.value == ToProjection(e) && r.value.tmdb == NoTmdb
  {
    if Complete(e) then Ok(ToProjection(e)) else Err(Internal(NullValue))
  }

  /** A stored row always has an id, a title and both timestamps, so its conversion fails
      exactly when it has no tmdbId or no rating. */
  lemma StoredConversion(rows: map<int, Entity>, nextId: nat, clock: nat)
    requires ValidRows(rows, nextId, clock)
    ensures forall k | k in rows :: Complete(rows[k]) <==> rows[k].tmdbId.Some? && rows[k].rating.Some?
  {
    forall k | k in rows
      ensures Complete(rows[k]) <==> rows[k].tmdbId.Some? && rows[k].rating.Some?
    {
      assert Stored(rows[k], k, clock);
    }
  }

  /**
   * `findOne`: the projection of the row. The Provider's detail is fetched, but putting it
   * into the immutable map throws inside the `try`, so the answer never carries it and does
   * not depend on the Provider, which is therefore not a parameter.
   */
  function FindOne(t: Table, id: int): (r: Result<Projection>)
    reads t
    requires t.Valid()
    ensures id !in t.rows ==> r == Err(ById(Label, id))
    ensures id in t.rows ==> (r.Ok? <==> t.rows[id].tmdbId.Some? && t.rows[id].rating.Some?)
    ensures id in t.rows && r.Err? ==> r.error == Internal(NullValue)
    ensures r.Ok? ==> r.value == ToProjection(t.rows[id]) && r.value.tmdb == NoTmdb
  {
    StoredConversion(t.rows, t.nextId, t.clock);
    match t.FindById(id)
    case None => Err(ById(Label, id))
    case Some(e) => ConvertSerieToMap(e)
  }

  /**
   * `enrichPosterPath`: each record converted, in order. A conversion failure escapes the
   * stream; the poster lookup's outcome is dropped, since the put into the immutable map
   * throws inside the `try`.
   */
  function EnrichPosterPath(es: seq<Entity>): (r: Result<seq<Projection>>)
    ensures r.Ok? <==> forall i | 0 <= i < |es| :: Complete(es[i])
    ensures r.Err? ==> r.error == Internal(NullValue)
    ensures r.Ok? ==> |r.value| == |es| && forall i | 0 <= i < |es| :: r.value[i] == ToProjection(es[i])
  {
    if es == [] then Ok([])
    else
      match ConvertSerieToMap(es[0])
      case Err(f) => Err(f)
      case Ok(v) =>
        match EnrichPosterPath(es[1..])
        case Err(f) =>
          assert !Complete(es[1..][0]) || exists i | 1 <= i < |es[1..]| :: !Complete(es[1..][i]);
          Err(f)
        case Ok(vs) => Ok([v] + vs)
  }

  /** A listing answer: `items`, and `total` when the source puts it. */
  datatype Listing = Listing(items: seq<Projection>, total: Option<int>)

  /** The items show, each once, exactly the rows of `rows` satisfying `keep`. */
  ghost predicate Shows(rows: map<int, Entity>, items: seq<Projection>, keep: Entity -> bool) {
    && (forall i | 0 <= i < |items| ::
          && items[i].id.Some? && items[i].id.value in rows
          && keep(rows[items[i].id.value])
          && items[i] == ToProjection(rows[items[i].id.value]))
    && (forall i, j | 0 <= i < j < |items| :: items[i].id != items[j].id)
    && (forall k | k in rows && keep(rows[k]) :: exists i | 0 <= i < |items| :: items[i].id == Some(k))
  }

  /** Converted rows listed once each show the rows of `keep`. */
  lemma ConvertedListShows(rows: map<int, Entity>, s: seq<Entity>, keep: Entity -> bool, items: seq<Projection>)
    requires forall i | 0 <= i < |s| :: s[i].id.Some? && s[i].id.value in rows && rows[s[i].id.value] == s[i] && keep(s[i])
    requires forall i, j | 0 <= i < j < |s| :: s[i].id != s[j].id
    requires forall k | k in rows && keep(rows[k]) :: rows[k] in s
    requires forall k | k in rows :: rows[k].id == Some(k)
    requires |items| == |s| && forall i | 0 <= i < |s| :: items[i] == ToProjection(s[i])
    ensures Shows(rows, items, keep)
  {
    forall k | k in rows && keep(rows[k])
      ensures exists i | 0 <= i < |items| :: items[i].id == Some(k)
    {
      var i :| 0 <= i < |s| && s[i] == rows[k];
      assert items[i].id == s[i].id;
    }
  }

  /** Listing the rows of `keep` succeeds exactly when each of them converts, and then shows them. */
  lemma ListedRows(rows: map<int, Entity>, nextId: nat, clock: nat, s: seq<Entity>, keep: Entity -> bool)
    requires ValidRows(rows, nextId, clock)
    requires forall i | 0 <= i < |s| :: s[i].id.Some? && s[i].id.value in rows && rows[s[i].id.value] == s[i] && keep(s[i])
    requires forall i, j | 0 <= i < j < |s| :: s[i].id != s[j].id
    requires forall k | k in rows && keep(rows[k]) :: rows[k] in s
    ensures EnrichPosterPath(s).Ok? <==>
              forall k | k in rows && keep(rows[k]) :: rows[k].tmdbId.Some? && rows[k].rating.Some?
    ensures EnrichPosterPath(s).Ok? ==> Shows(rows, EnrichPosterPath(s).value, keep)
  {
    StoredConversion(rows, nextId, clock);
    var r := EnrichPosterPath(s);
    if r.Ok? {
      ConvertedListShows(rows, s, keep, r.value);
    } else {
      var i :| 0 <= i < |s| && !Complete(s[i]);
      var k := s[i].id.value;
      assert rows[k] == s[i] && keep(rows[k]);
      assert !(rows[k].tmdbId.Some? && rows[k].rating.Some?);
    }
  }

  /** `findAll`: every row, newest first, or a failure when some row lacks a tmdbId or a rating. */
  function FindAll(t: Table): (r: Result<Listing>)
    reads t
    requires t.Valid()
    ensures r.Ok? <==> forall k | k in t.rows :: t.rows[k].tmdbId.Some? && t.rows[k].rating.Some?
    ensures r.Err? ==> r.error == Internal(NullValue)
    ensures r.Ok? ==> Shows(t.rows, r.value.items, Any) && r.value.total.None?
    ensures r.Ok? ==> forall i, j | 0 <= i < j < |r.value.items| ::
              r.value.items[i].createdAt.Some? && r.value.items[j].createdAt.Some?
              && r.value.items[i].createdAt.value > r.value.items[j].createdAt.value
  {
    var s := t.FindAllByOrderByCreatedAtDesc();
    ListedRows(t.rows, t.nextId, t.clock, s, Any);
    match EnrichPosterPath(s)
    case Err(f) => Err(f)
    case Ok(items) => Ok(Listing(items, None))
  }

  /** `findWishlist`: the wishlisted rows in id order, or a failure as above. */
  function FindWishlist(t: Table): (r: Result<Listing>)
    reads t
    requires t.Valid()
    ensures r.Ok? <==> forall k | k in t.rows && t.rows[k].wishlist :: t.rows[k].tmdbId.Some? && t.rows[k].rating.Some?
    ensures r.Err? ==> r.error == Internal(NullValue)
    ensures r.Ok? ==> Shows(t.rows, r.value.items, IsWishlisted) && r.value.total.None?
    ensures r.Ok? ==> forall i, j | 0 <= i < j < |r.value.items| ::
              r.value.items[i].id.Some? && r.value.items[j].id.Some?
              && r.value.items[i].id.value < r.value.items[j].id.value
  {
    var s := t.FindByWishlistTrue();
    ListedRows(t.rows, t.nextId, t.clock, s, IsWishlisted);
    match EnrichPosterPath(s)
    case Err(f) => Err(f)
    case Ok(items) => Ok(Listing(items, None))
  }

  /** `findRated`: the rated rows in id order with their count; fails when one has no tmdbId. */
  function FindRated(t: Table): (r: Result<Listing>)
    reads t
    requires t.Valid()
    ensures r.Ok? <==> forall k | k in t.rows && t.rows[k].rating.Some? :: t.rows[k].tmdbId.Some?
    ensures r.Err? ==> r.error == Internal(NullValue)
    ensures r.Ok? ==> Shows(t.rows, r.value.items, IsRated) && r.value.total == Some(|r.value.items|)
    ensures r.Ok? ==> forall i, j | 0 <= i < j < |r.value.items| ::
              r.value.items[i].id.Some? && r.value.items[j].id.Some?
              && r.value.items[i].id.value < r.value.items[j].id.value
    ensures r.Ok? ==> r.value.total == Some(|Matching(t.rows, IsRated)|)
  {
    var s := t.FindByRatingIsNotNull();
    ListedRows(t.rows, t.nextId, t.clock, s, IsRated);
    SelectedCount(t.rows, s, IsRated);
    match EnrichPosterPath(s)
    case Err(f) => Err(f)
    case Ok(items) => Ok(Listing(items, Some(|items|)))
  }

  /** The answer of `findByTmdbIdWithTmdbDetails`: the Provider's detail and the local row. */
  datatype Lookup = Lookup(tmdb: SerieDto, local: Option<Entity>)

  /** `findByTmdbIdWithTmdbDetails`: built with a HashMap, so a null `local` is allowed. */
  function FindByTmdbIdWithTmdbDetails(t: Table, p: Provider, tmdbId: int): (r: Result<Lookup>)
    reads t
    requires t.Valid()
    ensures r.Ok? <==> p.tv(tmdbId).Body?
    ensures r.Err? ==> r.error == SerieDetails(p, tmdbId).error
    ensures r.Ok? ==> r.value.tmdb == p.tv(tmdbId).payload
    ensures r.Ok? ==> (r.value.local.Some? <==> exists k | k in t.rows :: t.rows[k].tmdbId == Some(tmdbId))
    ensures r.Ok? && r.value.local.Some? ==>
              r.value.local.value in t.rows.Values && r.value.local.value.tmdbId == Some(tmdbId)
  {
    match SerieDetails(p, tmdbId)
    case Err(f) => Err(f)
    case Ok(detail) => Ok(Lookup(detail, t.FindByTmdbId(tmdbId)))
  }

  /** One search result; `Map.of` admits no null, so every field is present. */
  datatype SerieHit = SerieHit(
    tmdbId: int, name: string, posterPath: string, overview: string, firstAirDate: string,
    voteAverage: real, local: Entity)

  /** Every Provider field a search entry puts is non-null. */
  predicate Reportable(f: SerieDto) {
    && f.id.Some? && f.name.Some? && f.posterPath.Some? && f.overview.Some?
    && f.firstAirDate.Some? && f.voteAverage.Some?
  }

  /** One search entry: a NullPointerException unless every field and the local row are present. */
  function Entry(f: SerieDto, local: Option<Entity>): (r: Result<SerieHit>)
    ensures r.Ok? <==> Reportable(f) && local.Some?
    ensures r.Err? ==> r.error == Internal(NullValue)
    ensures r.Ok? ==> && Some(r.value.tmdbId) == f.id && Some(r.value.name) == f.name
                      && Some(r.value.posterPath) == f.posterPath && Some(r.value.overview) == f.overview
                      && Some(r.value.firstAirDate) == f.firstAirDate
                      && Some(r.value.voteAverage) == f.voteAverage && Some(r.value.local) == local
  {
    if Reportable(f) && local.Some? then
      Ok(SerieHit(f.id.value, f.name.value, f.posterPath.value, f.overview.value,
                  f.firstAirDate.value, f.voteAverage.value, local.value))
    else
      Err(Internal(NullValue))
  }

  /** The entries of `found`, the i-th tagged with `locals[i]`; the first failure escapes. */
  function Entries(found: seq<SerieDto>, locals: seq<Option<Entity>>): (r: Result<seq<SerieHit>>)
    requires |locals| == |found|
    ensures r.Ok? <==> forall i | 0 <= i < |found| :: Reportable(found[i]) && locals[i].Some?
    ensures r.Err? ==> r.error == Internal(NullValue)
    ensures r.Ok? ==> |r.value| == |found|
    ensures r.Ok? ==> forall i | 0 <= i < |found| :: Ok(r.value[i]) == Entry(found[i], locals[i])
  {
    if found == [] then Ok([])
    else
      match Entry(found[0], locals[0])
      case Err(f) => Err(f)
      case Ok(h) =>
        match Entries(found[1..], locals[1..])
        case Err(f) =>
          assert exists i | 0 <= i < |found[1..]| :: !(Reportable(found[1..][i]) && locals[1..][i].Some?);
          Err(f)
        case Ok(hs) => Ok([h] + hs)
  }

  /** `hit` reports the Provider result `f` and the local row `local`. */
  predicate Reports(f: SerieDto, local: Option<Entity>, hit: SerieHit) {
    && f.id == Some(hit.tmdbId) && f.name == Some(hit.name) && f.posterPath == Some(hit.posterPath)
    && f.overview == Some(hit.overview) && f.firstAirDate == Some(hit.firstAirDate)
    && f.voteAverage == Some(hit.voteAverage) && local == Some(hit.local)
  }

  /** The `results` of a search over `found`: they exist only when every result is complete
      and already stored locally. */
  function Tag(t: Table, found: seq<SerieDto>): (r: Result<seq<SerieHit>>)
    reads t
    requires t.Valid()
    ensures r.Ok? <==> forall i | 0 <= i < |found| :: Reportable(found[i]) && LocalFor(t, found[i].id).Some?
    ensures r.Err? ==> r.error == Internal(NullValue)
    ensures r.Ok? ==> |r.value| == |found|
    ensures r.Ok? ==> forall i | 0 <= i < |found| :: Reports(found[i], LocalFor(t, found[i].id), r.value[i])
  {
    var locals := Locals(t, found, (m: SerieDto) => m.id);
    var r := Entries(found, locals);
    assert r.Ok? ==> forall i | 0 <= i < |found| :: Reports(found[i], locals[i], r.value[i]) by {
      if r.Ok? {
        forall i | 0 <= i < |found|
          ensures Reports(found[i], locals[i], r.value[i])
        {
          assert Entry(found[i], locals[i]) == Ok(r.value[i]);
        }
      }
    }
    r
  }

  /** The envelope of a non-blank search over the Provider's results `found`. */
  ghost predicate Answers(t: Table, q: string, limit: int, found: seq<SerieDto>, r: Result<Envelope<SerieHit>>)
    reads t
    requires t.Valid()
  {
    && (limit < 0 ==> r == Err(IllegalArgument(Decimal(limit))))
    && (limit >= 0 ==>
          var front := found[..Min(limit, |found|)];
          && (r.Ok? <==> forall i | 0 <= i < |front| :: Reportable(front[i]) && LocalFor(t, front[i].id).Some?)
          && (r.Err? ==> r.error == Internal(NullValue))
          && (r.Ok? ==> && r.value.query == q && r.value.limit == limit
                        && r.value.total == |r.value.results| == |front|
                        && forall i | 0 <= i < |front| :: Reports(front[i], LocalFor(t, front[i].id), r.value.results[i])))
  }

  function Answer(t: Table, q: string, limit: int, found: seq<SerieDto>): (r: Result<Envelope<SerieHit>>)
    reads t
    requires t.Valid()
    ensures Answers(t, q, limit, found, r)
  {
    if limit < 0 then Err(IllegalArgument(Decimal(limit)))
    else
      var front := Limit(found, limit).value;
      assert front == found[..Min(limit, |found|)];
      match Tag(t, front)
      case Err(f) => Err(f)
      case Ok(hits) => Ok(Envelope(q, limit, |hits|, hits))
  }

  /**
   * `search`: as MovieService's, except that an entry holding a null, including a result
   * not stored locally, makes the whole search fail.
   */
  function Search(t: Table, p: Provider, query: Option<string>, limit: int): (r: Result<Envelope<SerieHit>>)
    reads t
    requires t.Valid()
    ensures TrimmedQuery(query) == [] ==> r == Ok(Envelope("", limit, 0, []))
    ensures var q := TrimmedQuery(query);
            q != [] && SearchSeries(p, q).Err? ==> r == Err(SearchSeries(p, q).error)
    ensures var q := TrimmedQuery(query);
            q != [] && SearchSeries(p, q) == Ok(None) ==> r == Ok(Envelope(q, limit, 0, []))
    ensures var q := TrimmedQuery(query);
            q != [] && SearchSeries(p, q).Ok? && SearchSeries(p, q).value.Some? ==>
              Answers(t, q, limit, SearchSeries(p, q).value.value.results.value, r)
  {
    var q := TrimmedQuery(query);
    if q == [] then Ok(Envelope(q, limit, 0, []))
    else
      match SearchSeries(p, q)
      case Err(f) => Err(f)
      case Ok(None) => Ok(Envelope(q, limit, 0, []))
      case Ok(Some(pg)) => Answer(t, q, limit, pg.results.value)
  }

  /** A series search that finds a series nobody stored locally fails, whatever the limit
      lets through, as long as that result is among the first `limit`. */
  lemma UnknownSeriesFailsSearch(t: Table, p: Provider, query: Option<string>, limit: int, i: nat)
    requires t.Valid()
    requires var q := TrimmedQuery(query);
             && q != [] && SearchSeries(p, q).Ok? && SearchSeries(p, q).value.Some?
             && i < |SearchSeries(p, q).value.value.results.value| && i < limit
             && LocalFor(t, SearchSeries(p, q).value.value.results.value[i].id).None?
    ensures Search(t, p, query, limit) == Err(Internal(NullValue))
  {
    var q := TrimmedQuery(query);
    var found := SearchSeries(p, q).value.value.results.value;
    var front := found[..Min(limit, |found|)];
    assert front[i] == found[i];
    assert Answers(t, q, limit, found, Search(t, p, query, limit));
  }
}
