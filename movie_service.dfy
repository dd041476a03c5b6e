/**
 * MovieService: the movie catalog's operations over the local table and the Provider.
 * The commands change the table; the queries read it and ask the Provider for details.
 */
module MovieService {
  import opened Wrappers
  import opened Seqs
  import opened JavaText
  import opened Failures
  import opened ResourceNotFound
  import opened Tmdb
  import opened Entities
  import opened Dtos
  import opened Catalog
  import opened Reconcile
  import opened ServiceSupport

  /** The resource type named in this service's not-found messages. */
  const Label := "Film"

  /** `create`: the seven-argument record, saved. */
  method Create(t: Table, d: CreateDto) returns (r: Result<Entity>)
    requires t.Valid()
    modifies t
    ensures t.Valid()
    ensures var e := AllArgs(d.title, d.tmdbId, d.rating, d.wishlist, d.review, d.viewCount, d.watched);
            && (r.Ok? <==> Constraints(e) && !TmdbClash(old(t.rows), e))
            && (r.Ok? ==> && r.value == Stamped(e, old(t.nextId), old(t.clock))
                          && t.rows == old(t.rows)[old(t.nextId) := r.value])
    ensures ValidCreateDto(d) && (d.tmdbId.None? || !old(t.ExistsByTmdbId(d.tmdbId.value))) ==> r.Ok?
    ensures r.Err? ==> t.rows == old(t.rows)
  {
    var e := AllArgs(d.title, d.tmdbId, d.rating, d.wishlist, d.review, d.viewCount, d.watched);
    if ValidCreateDto(d) {
      ValidCreateDtoBuildsValidEntity(d);
    }
    r := t.Save(e);
  }

  /**
   * `createFromTmdb`: the Provider's detail is fetched first and a failure there aborts.
   * A row with the command's tmdbId is overlaid and saved again; otherwise a new record is
   * built, titled by the override or the Provider's title, and saved.
   */
  method CreateFromTmdb(t: Table, p: Provider, d: CreateFromTmdbDto) returns (r: Result<Entity>)
    requires t.Valid() && d.tmdbId.Some?
    modifies t
    ensures t.Valid()
    ensures MovieDetails(p, d.tmdbId.value).Err? ==> r == Err(MovieDetails(p, d.tmdbId.value).error)
    ensures r.Err? ==> t.rows == old(t.rows) && t.nextId == old(t.nextId)
    ensures var found := old(t.FindByTmdbId(d.tmdbId.value));
            found.Some? && MovieDetails(p, d.tmdbId.value).Ok? ==>
              var e := OverlayFromTmdb(found.value, d);
              && (r.Ok? <==> Constraints(e))
              && (r.Ok? ==> && r.value == Merged(found.value, e, old(t.clock))
                            && t.rows == old(t.rows)[found.value.id.value := r.value])
    ensures var found := old(t.FindByTmdbId(d.tmdbId.value));
            found.None? && MovieDetails(p, d.tmdbId.value).Ok? ==>
              var e := FreshFromTmdb(d, MovieDetails(p, d.tmdbId.value).value.title);
              && (r.Ok? <==> Constraints(e))
              && (r.Ok? ==> && r.value == Stamped(e, old(t.nextId), old(t.clock))
                            && t.rows == old(t.rows)[old(t.nextId) := r.value])
    ensures r.Ok? ==> t.FindByTmdbId(d.tmdbId.value) == Some(r.value)
  {
    var x := d.tmdbId.value;
    var detail := MovieDetails(p, x);
    if detail.Err? {
      return Err(detail.error);
    }
    var found := t.FindByTmdbId(x);
    if found.Some? {
      var e := ApplyFromTmdbDto(found.value, d);
      SameKeysNoClash(t.rows, t.nextId, t.clock, found.value.id.value, e);
      r := t.Save(e);
    } else {
      var e := FreshFromTmdb(d, detail.value.title);
      r := t.Save(e);
    }
    if r.Ok? {
      assert r.value.id.value in t.rows && t.rows[r.value.id.value] == r.value;
    }
  }

  /** Repeating an upsert that succeeded, against a Provider that may answer differently the
      second time: the first call stores its record under the record's id, and the second
      stores nothing new and returns the same record unless its own fetch fails. */
  method CreateFromTmdbTwice(t: Table, p1: Provider, p2: Provider, d: CreateFromTmdbDto)
      returns (first: Result<Entity>, second: Result<Entity>)
    requires t.Valid() && d.tmdbId.Some?
    modifies t
    ensures t.Valid()
    ensures first.Ok? ==> && first.value.id.Some?
                          && t.rows == old(t.rows)[first.value.id.value := first.value]
    ensures first.Ok? ==> t.FindByTmdbId(d.tmdbId.value) == Some(first.value)
    ensures first.Ok? && MovieDetails(p2, d.tmdbId.value).Ok? ==> second == first
    ensures first.Ok? && MovieDetails(p2, d.tmdbId.value).Err? ==>
              second == Err(MovieDetails(p2, d.tmdbId.value).error)
  {
    var x := d.tmdbId.value;
    ghost var before := t.rows;
    ghost var found := t.FindByTmdbId(x);
    first := CreateFromTmdb(t, p1, d);
    ghost var between := t.rows;
    if first.Ok? {
      assert between == before[first.value.id.value := first.value];
      var title := MovieDetails(p1, x).value.title;
      RepeatedUpsertIsFixed(first.value, d, found.GetOr(first.value), title, t.clock);
      assert first.value.id.value in between && between[first.value.id.value] == first.value;
    }
    second := CreateFromTmdb(t, p2, d);
    if first.Ok? && second.Ok? {
      var k := first.value.id.value;
      assert second == Ok(first.value);
      assert t.rows == between[k := first.value];
      PutBack(between, k, first.value);
    }
  }

  /** `update`: an unknown id is a not-found failure; otherwise the update is overlaid and saved. */
  method Update(t: Table, id: int, d: UpdateDto) returns (r: Result<Entity>)
    requires t.Valid()
    modifies t
    ensures t.Valid()
    ensures id !in old(t.rows) ==> r == Err(ById(Label, id))
    ensures id in old(t.rows) ==>
              var e := OverlayUpdate(old(t.rows)[id], d);
              && (r.Ok? <==> Constraints(e) && !TmdbClash(old(t.rows), e))
              && (r.Ok? ==> && r.value == Merged(old(t.rows)[id], e, old(t.clock))
                            && t.rows == old(t.rows)[id := r.value])
    ensures r.Err? ==> t.rows == old(t.rows)
    ensures t.nextId == old(t.nextId)
  {
    var stored := t.FindById(id);
    if stored.None? {
      return Err(ById(Label, id));
    }
    var e := ApplyUpdateDto(stored.value, d);
    r := t.Save(e);
  }

  /** `remove`: an unknown id is a not-found failure; otherwise the row is deleted and returned. */
  method Remove(t: Table, id: int) returns (r: Result<Entity>)
    requires t.Valid()
    modifies t
    ensures t.Valid()
    ensures id !in old(t.rows) ==> r == Err(ById(Label, id)) && t.rows == old(t.rows)
    ensures id in old(t.rows) ==> r == Ok(old(t.rows)[id]) && t.rows == old(t.rows) - {id}
    ensures t.nextId == old(t.nextId) && t.clock == old(t.clock)
  {
    var stored := t.FindById(id);
    if stored.None? {
      return Err(ById(Label, id));
    }
    t.Delete(stored.value);
    r := Ok(stored.value);
  }

  /**
   * `findOne`: the projection of the row, with the whole Provider detail attached when the
   * row has a tmdbId and the Provider answers; a Provider failure is swallowed.
   */
  function FindOne(t: Table, p: Provider, id: int): (r: Result<Projection>)
    reads t
    requires t.Valid()
    ensures r.Err? <==> id !in t.rows
    ensures r.Err? ==> r.error == ById(Label, id)
    ensures r.Ok? ==> r.value.(tmdb := NoTmdb) == ToProjection(t.rows[id])
    ensures r.Ok? ==> (r.value.tmdb.FullMovie? <==>
                         t.rows[id].tmdbId.Some? && p.movie(t.rows[id].tmdbId.value).Body?)
    ensures r.Ok? && r.value.tmdb.FullMovie? ==> r.value.tmdb.detail == p.movie(t.rows[id].tmdbId.value).payload
    ensures r.Ok? ==> !r.value.tmdb.PosterOnly?
  {
    match t.FindById(id)
    case None => Err(ById(Label, id))
    case Some(e) =>
      var base := ToProjection(e);
      if e.tmdbId.Some? && MovieDetails(p, e.tmdbId.value).Ok? then
        Ok(base.(tmdb := FullMovie(MovieDetails(p, e.tmdbId.value).value)))
      else
        Ok(base)
  }

  /** One element of `enrichPosterPath`: the projection, plus the poster path when the row
      has a tmdbId and the joined detail future completes normally. */
  function EnrichOne(p: Provider, e: Entity): (v: Projection)
    ensures v.(tmdb := NoTmdb) == ToProjection(e)
    ensures v.tmdb != NoTmdb <==> e.tmdbId.Some? && p.movie(e.tmdbId.value).Body?
    ensures v.tmdb != NoTmdb ==> v.tmdb == PosterOnly(p.movie(e.tmdbId.value).payload.posterPath)
  {
    if e.tmdbId.Some? && JoinMovieDetailsAsync(p, e.tmdbId.value).Ok? then
      ToProjection(e).(tmdb := PosterOnly(JoinMovieDetailsAsync(p, e.tmdbId.value).value.posterPath))
    else
      ToProjection(e)
  }

  /** `enrichPosterPath`: every record enriched, in the order given; no failure escapes. */
  function EnrichPosterPath(p: Provider, es: seq<Entity>): (r: seq<Projection>)
    ensures |r| == |es|
    ensures forall i | 0 <= i < |es| :: r[i] == EnrichOne(p, es[i])
  {
    seq(|es|, i requires 0 <= i < |es| => EnrichOne(p, es[i]))
  }

  /** A listing answer: `items`, and `total` when the source puts it. */
  datatype Listing = Listing(items: seq<Projection>, total: Option<int>)

  /** The items show, each once and enriched, exactly the rows of `rows` satisfying `keep`. */
  ghost predicate Shows(rows: map<int, Entity>, p: Provider, items: seq<Projection>, keep: Entity -> bool) {
    && (forall i | 0 <= i < |items| ::
          && items[i].id.Some? && items[i].id.value in rows
          && keep(rows[items[i].id.value])
          && items[i] == EnrichOne(p, rows[items[i].id.value]))
    && (forall i, j | 0 <= i < j < |items| :: items[i].id != items[j].id)
    && (forall k | k in rows && keep(rows[k]) :: exists i | 0 <= i < |items| :: items[i].id == Some(k))
  }

  /** Rows listed once each, enriched, show the rows of `keep`. */
  lemma ProjectedListShows(rows: map<int, Entity>, p: Provider, s: seq<Entity>, keep: Entity -> bool)
    requires forall i | 0 <= i < |s| :: s[i].id.Some? && s[i].id.value in rows && rows[s[i].id.value] == s[i] && keep(s[i])
    requires forall i, j | 0 <= i < j < |s| :: s[i].id != s[j].id
    requires forall k | k in rows && keep(rows[k]) :: rows[k] in s
    requires forall k | k in rows :: rows[k].id == Some(k)
    ensures Shows(rows, p, EnrichPosterPath(p, s), keep)
    ensures forall i | 0 <= i < |s| :: EnrichPosterPath(p, s)[i].id == s[i].id
  {
    var items := EnrichPosterPath(p, s);
    forall i | 0 <= i < |s|
      ensures items[i].id == s[i].id
    {
      assert items[i].(tmdb := NoTmdb) == ToProjection(s[i]);
    }
    forall k | k in rows && keep(rows[k])
      ensures exists i | 0 <= i < |items| :: items[i].id == Some(k)
    {
      var i :| 0 <= i < |s| && s[i] == rows[k];
      assert items[i].id == Some(k);
    }
  }

  /** `findAll`: every row, newest first. */
  function FindAll(t: Table, p: Provider): (r: Listing)
    reads t
    requires t.Valid()
    ensures Shows(t.rows, p, r.items, Any)
    ensures forall i, j | 0 <= i < j < |r.items| ::
              r.items[i].createdAt.Some? && r.items[j].createdAt.Some?
              && r.items[i].createdAt.value > r.items[j].createdAt.value
    ensures r.total.None?
  {
    var s := t.FindAllByOrderByCreatedAtDesc();
    ProjectedListShows(t.rows, p, s, Any);
    Listing(EnrichPosterPath(p, s), None)
  }

  /** `findWishlist`: the wishlisted rows in id order. */
  function FindWishlist(t: Table, p: Provider): (r: Listing)
    reads t
    requires t.Valid()
    ensures Shows(t.rows, p, r.items, IsWishlisted)
    ensures forall i, j | 0 <= i < j < |r.items| ::
              r.items[i].id.Some? && r.items[j].id.Some? && r.items[i].id.value < r.items[j].id.value
    ensures r.total.None?
  {
    ProjectedListShows(t.rows, p, t.FindByWishlistTrue(), IsWishlisted);
    Listing(EnrichPosterPath(p, t.FindByWishlistTrue()), None)
  }

  /** `findRated`: the rated rows in id order, with their count. */
  function FindRated(t: Table, p: Provider): (r: Listing)
    reads t
    requires t.Valid()
    ensures Shows(t.rows, p, r.items, IsRated)
    ensures forall i, j | 0 <= i < j < |r.items| ::
              r.items[i].id.Some? && r.items[j].id.Some? && r.items[i].id.value < r.items[j].id.value
    ensures r.total == Some(|r.items|) && r.total == Some(|Matching(t.rows, IsRated)|)
  {
    ProjectedListShows(t.rows, p, t.FindByRatingIsNotNull(), IsRated);
    SelectedCount(t.rows, t.FindByRatingIsNotNull(), IsRated);
    var items := EnrichPosterPath(p, t.FindByRatingIsNotNull());
    Listing(items, Some(|items|))
  }

  /** The answer of `findByTmdbIdWithTmdbDetails`: the Provider's detail and the local row. */
  datatype Lookup = Lookup(tmdb: MovieDto, local: Option<Entity>)

  /** `findByTmdbIdWithTmdbDetails`: a Provider failure propagates; `local` is null when no
      row has the tmdbId. */
  function FindByTmdbIdWithTmdbDetails(t: Table, p: Provider, tmdbId: int): (r: Result<Lookup>)
    reads t
    requires t.Valid()
    ensures r.Ok? <==> p.movie(tmdbId).Body?
    ensures r.Err? ==> r.error == MovieDetails(p, tmdbId).error
    ensures r.Ok? ==> r.value.tmdb == p.movie(tmdbId).payload
    ensures r.Ok? ==> (r.value.local.Some? <==> exists k | k in t.rows :: t.rows[k].tmdbId == Some(tmdbId))
    ensures r.Ok? && r.value.local.Some? ==>
              r.value.local.value in t.rows.Values && r.value.local.value.tmdbId == Some(tmdbId)
  {
    match MovieDetails(p, tmdbId)
    case Err(f) => Err(f)
    case Ok(detail) => Ok(Lookup(detail, t.FindByTmdbId(tmdbId)))
  }

  /** One search result: the Provider's fields and the local row with that tmdbId. */
  datatype MovieHit = MovieHit(
    tmdbId: Option<int>, title: Option<string>, posterPath: Option<string>,
    overview: Option<string>, releaseDate: Option<string>, voteAverage: Option<real>,
    local: Option<Entity>)

  /** `hit` reports the Provider result `m` and what the table stores under its tmdbId. */
  ghost predicate Reports(t: Table, m: MovieDto, hit: MovieHit)
    reads t
    requires t.Valid()
  {
    && hit.tmdbId == m.id && hit.title == m.title && hit.posterPath == m.posterPath
    && hit.overview == m.overview && hit.releaseDate == m.releaseDate
    && hit.voteAverage == m.voteAverage
    && hit.local == LocalFor(t, m.id)
  }

  /** The `results` of a search over `found`: one bulk lookup, then each result tagged. */
  function Tag(t: Table, found: seq<MovieDto>): (hits: seq<MovieHit>)
    reads t
    requires t.Valid()
    ensures |hits| == |found|
    ensures forall i | 0 <= i < |found| :: Reports(t, found[i], hits[i])
  {
    var locals := Locals(t, found, (m: MovieDto) => m.id);
    seq(|found|, i requires 0 <= i < |found| => Hit(found[i], locals[i]))
  }

  function Hit(f: MovieDto, local: Option<Entity>): (h: MovieHit)
    ensures h.tmdbId == f.id && h.title == f.title && h.posterPath == f.posterPath
    ensures h.overview == f.overview && h.releaseDate == f.releaseDate
    ensures h.voteAverage == f.voteAverage && h.local == local
  {
    MovieHit(f.id, f.title, f.posterPath, f.overview, f.releaseDate, f.voteAverage, local)
  }

  /** The envelope of a non-blank search over the Provider's results `found`: a negative limit
      fails with its own value as message; otherwise the first `limit` results, in order,
      each reporting its local row. */
  ghost predicate Answers(t: Table, q: string, limit: int, found: seq<MovieDto>, r: Result<Envelope<MovieHit>>)
    reads t
    requires t.Valid()
  {
    && (r.Err? <==> limit < 0)
    && (r.Err? ==> r.error == IllegalArgument(Decimal(limit)))
    && (r.Ok? ==> && r.value.query == q && r.value.limit == limit
                  && r.value.total == |r.value.results| == Min(limit, |found|)
                  && forall i | 0 <= i < |r.value.results| :: Reports(t, found[i], r.value.results[i]))
  }

  function Answer(t: Table, q: string, limit: int, found: seq<MovieDto>): (r: Result<Envelope<MovieHit>>)
    reads t
    requires t.Valid()
    ensures Answers(t, q, limit, found, r)
  {
    var limited := Limit(found, limit);
    if limited.Err? then Err(limited.error)
    else
      var hits := Tag(t, limited.value);
      Ok(Envelope(q, limit, |hits|, hits))
  }

  /**
   * `search`: a blank query answers empty without asking the Provider; otherwise the
   * Provider's first `limit` results, each tagged with the local row that has its tmdbId.
   * A search failure propagates and a null answer is an empty envelope.
   */
  function Search(t: Table, p: Provider, query: Option<string>, limit: int): (r: Result<Envelope<MovieHit>>)
    reads t
    requires t.Valid()
    ensures TrimmedQuery(query) == [] ==> r == Ok(Envelope("", limit, 0, []))
    ensures var q := TrimmedQuery(query);
            q != [] && SearchMovies(p, q).Err? ==> r == Err(SearchMovies(p, q).error)
    ensures var q := TrimmedQuery(query);
            q != [] && SearchMovies(p, q) == Ok(None) ==> r == Ok(Envelope(q, limit, 0, []))
    ensures var q := TrimmedQuery(query);
            q != [] && SearchMovies(p, q).Ok? && SearchMovies(p, q).value.Some? ==>
              Answers(t, q, limit, SearchMovies(p, q).value.value.results.value, r)
  {
    var q := TrimmedQuery(query);
    if q == [] then Ok(Envelope(q, limit, 0, []))
    else
      match SearchMovies(p, q)
      case Err(f) => Err(f)
      case Ok(None) => Ok(Envelope(q, limit, 0, []))
      case Ok(Some(pg)) => Answer(t, q, limit, pg.results.value)
  }
}
