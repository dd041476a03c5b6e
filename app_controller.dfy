/**
 * AppController's `/search`: a multi search (movies and series) on the Provider, with the
 * requested limit clamped into 1..50. The controllers of `/movie/search` and `/serie/search`
 * apply the same clamp before calling their service.
 */
module AppController {
  import opened Wrappers
  import opened Seqs
  import opened JavaText
  import opened Failures
  import Tmdb
  import Catalog
  import ServiceSupport
  import MovieService
  import SerieService

  /** `Math.max(1, Math.min(50, limit))`. */
  function SafeLimit(limit: int): (n: int)
    ensures 1 <= n <= 50
    ensures 1 <= limit <= 50 ==> n == limit
    ensures limit < 1 ==> n == 1
    ensures limit > 50 ==> n == 50
  {
    Max(1, Min(50, limit))
  }

  /**
   * searchMulti: a blank query answers at once with the query and the limit as given; a
   * missing page answers with no results; otherwise the first SafeLimit(limit) movie and
   * series items. The Provider sees the query untrimmed.
   */
  function SearchMulti(p: Tmdb.Provider, query: string, limit: int): (r: Result<ServiceSupport.Envelope<Tmdb.MultiDto>>)
    ensures Trim(query) == [] ==> r == Ok(ServiceSupport.Envelope(query, limit, 0, []))
    ensures Trim(query) != [] ==> Answers(query, SafeLimit(limit), Tmdb.SearchMulti(p, query), r)
  {
    if Trim(query) == [] then Ok(ServiceSupport.Envelope(query, limit, 0, []))
    else Answer(query, SafeLimit(limit), Tmdb.SearchMulti(p, query))
  }

  /** The envelope of a non-blank query, given what TmdbService's searchMulti returned. */
  predicate Answers(query: string, safeLimit: nat, s: Result<Option<Tmdb.Page<Tmdb.MultiDto>>>,
                    r: Result<ServiceSupport.Envelope<Tmdb.MultiDto>>)
  {
    && (s.Err? ==> r == Err(s.error))
    && (s == Ok(None) ==> r == Ok(ServiceSupport.Envelope(query, safeLimit, 0, [])))
    && (s.Ok? && s.value.Some? && s.value.value.results.Some? ==>
          var items := s.value.value.results.value;
          && r.Ok? && r.value.query == query && r.value.limit == safeLimit
          && r.value.total == |r.value.results| == Min(safeLimit, |items|)
          && r.value.results == items[..r.value.total])
  }

  function Answer(query: string, safeLimit: nat, s: Result<Option<Tmdb.Page<Tmdb.MultiDto>>>):
    (r: Result<ServiceSupport.Envelope<Tmdb.MultiDto>>)
    ensures Answers(query, safeLimit, s, r)
  {
    match s
    case Err(f) => Err(f)
    case Ok(None) => Ok(ServiceSupport.Envelope(query, safeLimit, 0, []))
    case Ok(Some(pg)) =>
      var limited := Take(pg.results.GetOr([]), safeLimit);
      Ok(ServiceSupport.Envelope(query, safeLimit, |limited|, limited))
  }

  /** What `/search` can answer: never more than 50 items, each a movie or a series in the
      Provider's order, and a failure only if the Provider's exchange failed. */
  lemma {:induction false} SearchMultiAnswers(p: Tmdb.Provider, query: string, limit: int)
    ensures var r := SearchMulti(p, query, limit);
            r.Ok? ==> && r.value.total == |r.value.results| <= 50
                      && forall item | item in r.value.results :: Tmdb.IsMovieOrTv(item)
    ensures SearchMulti(p, query, limit).Err? <==>
              Trim(query) != [] && (p.searchMulti(query).TransportError?
                                    || (p.searchMulti(query).Body? && p.searchMulti(query).payload.results.None?))
  {
    var r := SearchMulti(p, query, limit);
    var s := Tmdb.SearchMulti(p, query);
    if r.Ok? && Trim(query) != [] && s.Ok? && s.value.Some? {
      Tmdb.SearchMultiKeepsMoviesAndSeries(p, query);
      var items := s.value.value.results.value;
      forall item | item in r.value.results
        ensures Tmdb.IsMovieOrTv(item)
      {
        assert item in items;
      }
    }
  }

  /** With the controllers' clamp in front of it, the movie search never rejects the limit:
      a negative limit is its only way to an IllegalArgumentException. */
  lemma {:induction false} ClampedMovieSearchKeepsTheLimit(t: Catalog.Table, p: Tmdb.Provider, query: Option<string>, limit: int)
    requires t.Valid()
    ensures var r := MovieService.Search(t, p, query, SafeLimit(limit));
            r.Err? ==> !r.error.IllegalArgument?
  {
    var q := ServiceSupport.TrimmedQuery(query);
    if q != [] {
      var s := Tmdb.SearchMovies(p, q);
      assert s.Err? ==> s.error.TmdbApi? || s.error.Internal?;
    }
  }

  /** The same for the series search. */
  lemma {:induction false} ClampedSerieSearchKeepsTheLimit(t: Catalog.Table, p: Tmdb.Provider, query: Option<string>, limit: int)
    requires t.Valid()
    ensures var r := SerieService.Search(t, p, query, SafeLimit(limit));
            r.Err? ==> !r.error.IllegalArgument?
  {
    var q := ServiceSupport.TrimmedQuery(query);
    if q != [] {
      var s := Tmdb.SearchSeries(p, q);
      assert s.Err? ==> s.error.TmdbApi? || s.error.Internal?;
    }
  }
}
