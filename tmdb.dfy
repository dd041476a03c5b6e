/**
 * The Provider (TMDB) and TmdbService. The HTTP exchange is an oracle: every request
 * yields a transport failure (any RestClientException), a null body, or a decoded body.
 * TmdbService turns these outcomes into values or TmdbApiException failures.
 */
module Tmdb {
  import opened Wrappers
  import opened Seqs
  import opened JavaText
  import opened Failures

  /** The fields of TmdbMovieDto that the core reads. */
  datatype MovieDto = MovieDto(
    id: Option<int>, title: Option<string>, overview: Option<string>,
    releaseDate: Option<string>, posterPath: Option<string>, voteAverage: Option<real>)

  /** The fields of TmdbSerieDto that the core reads. */
  datatype SerieDto = SerieDto(
    id: Option<int>, name: Option<string>, overview: Option<string>,
    firstAirDate: Option<string>, posterPath: Option<string>, voteAverage: Option<real>)

  /** The fields of TmdbMultiDto; `mediaType` is "movie", "tv" or "person". */
  datatype MultiDto = MultiDto(
    id: Option<int>, mediaType: Option<string>, title: Option<string>, name: Option<string>,
    overview: Option<string>, posterPath: Option<string>, voteAverage: Option<real>,
    releaseDate: Option<string>, firstAirDate: Option<string>)

  /** TmdbSearchResponseDto: one page of results; `results` may be absent from the JSON. */
  datatype Page<T> = Page(
    page: Option<int>, results: Option<seq<T>>, totalPages: Option<int>, totalResults: Option<int>)

  /** What one HTTP exchange with the Provider produces. */
  datatype Http<T> = TransportError | NullBody | Body(payload: T)

  /** The Provider's endpoints: /search/movie, /search/tv, /search/multi, /movie/{id}, /tv/{id}. */
  datatype Provider = Provider(
    searchMovie: string -> Http<Page<MovieDto>>,
    searchTv: string -> Http<Page<SerieDto>>,
    searchMulti: string -> Http<Page<MultiDto>>,
    movie: int -> Http<MovieDto>,
    tv: int -> Http<SerieDto>)

  const MovieSearchError := "Erreur lors de la recherche de films TMDB"
  const SerieSearchError := "Erreur lors de la recherche de séries TMDB"
  const MultiSearchError := "Erreur lors de la recherche multi TMDB"
  const MovieDetailsError := "Erreur lors de la récupération des détails du film TMDB"
  const SerieDetailsError := "Erreur lors de la récupération des détails de la série TMDB"

  /**
   * searchMovies / searchSeries: a null body is returned as null; a body without a result
   * list throws a NullPointerException from the debug-log argument, which no catch handles.
   */
  function NormaliseSearch<T>(h: Http<Page<T>>, transportMessage: string): (r: Result<Option<Page<T>>>)
    ensures h.TransportError? <==> r == Err(TmdbApi(transportMessage))
    ensures h.NullBody? <==> r == Ok(None)
    ensures (h.Body? && h.payload.results.None?) <==> r == Err(Internal(NullValue))
    ensures r.Ok? && r.value.Some? ==> h == Body(r.value.value) && r.value.value.results.Some?
  {
    match h
    case TransportError => Err(TmdbApi(transportMessage))
    case NullBody => Ok(None)
    case Body(pg) => if pg.results.None? then Err(Internal(NullValue)) else Ok(Some(pg))
  }

  /** searchMovies: the movie search page, normalised with the movie search message. */
  function SearchMovies(p: Provider, query: string): (r: Result<Option<Page<MovieDto>>>)
    ensures p.searchMovie(query).TransportError? <==> r == Err(TmdbApi(MovieSearchError))
    ensures p.searchMovie(query).NullBody? <==> r == Ok(None)
    ensures (p.searchMovie(query).Body? && p.searchMovie(query).payload.results.None?) <==>
              r == Err(Internal(NullValue))
    ensures r.Ok? && r.value.Some? ==>
              p.searchMovie(query) == Body(r.value.value) && r.value.value.results.Some?
  {
    NormaliseSearch(p.searchMovie(query), MovieSearchError)
  }

  /** searchSeries: the tv search page, normalised with the series search message. */
  function SearchSeries(p: Provider, query: string): (r: Result<Option<Page<SerieDto>>>)
    ensures p.searchTv(query).TransportError? <==> r == Err(TmdbApi(SerieSearchError))
    ensures p.searchTv(query).NullBody? <==> r == Ok(None)
    ensures (p.searchTv(query).Body? && p.searchTv(query).payload.results.None?) <==>
              r == Err(Internal(NullValue))
    ensures r.Ok? && r.value.Some? ==>
              p.searchTv(query) == Body(r.value.value) && r.value.value.results.Some?
  {
    NormaliseSearch(p.searchTv(query), SerieSearchError)
  }

  predicate IsMovieOrTv(item: MultiDto) {
    item.mediaType == Some("movie") || item.mediaType == Some("tv")
  }

  /**
   * searchMulti: keeps only the "movie" and "tv" items of a page that has a result list;
   * a page without one fails in the log argument as above.
   */
  function SearchMulti(p: Provider, query: string): (r: Result<Option<Page<MultiDto>>>)
    ensures p.searchMulti(query).TransportError? <==> r == Err(TmdbApi(MultiSearchError))
    ensures p.searchMulti(query).NullBody? <==> r == Ok(None)
    ensures (p.searchMulti(query).Body? && p.searchMulti(query).payload.results.None?)
              <==> r == Err(Internal(NullValue))
    ensures r.Ok? && r.value.Some? ==>
              var raw := p.searchMulti(query).payload;
              && raw.results.Some?
              && r.value.value == raw.(results := Some(Filter(raw.results.value, IsMovieOrTv)))
  {
    match p.searchMulti(query)
    case TransportError => Err(TmdbApi(MultiSearchError))
    case NullBody => Ok(None)
    case Body(pg) =>
      if pg.results.None? then Err(Internal(NullValue))
      else Ok(Some(pg.(results := Some(Filter(pg.results.value, IsMovieOrTv)))))
  }

  /** Every item searchMulti returns is a movie or a series; people and untyped items are gone. */
  lemma SearchMultiKeepsMoviesAndSeries(p: Provider, query: string)
    ensures var r := SearchMulti(p, query);
            r.Ok? && r.value.Some? ==>
              && r.value.value.results.Some?
              && (forall item | item in r.value.value.results.value ::
                    item.mediaType == Some("movie") || item.mediaType == Some("tv"))
  {
  }

  /** getMovieDetails: a null body is a TmdbApiException naming the id, never a null value. */
  function MovieDetails(p: Provider, tmdbId: int): (r: Result<MovieDto>)
    ensures r.Ok? <==> p.movie(tmdbId).Body?
    ensures r.Ok? ==> r.value == p.movie(tmdbId).payload
    ensures p.movie(tmdbId).NullBody? ==> r == Err(TmdbApi("Film TMDB non trouvé avec l'ID: " + Decimal(tmdbId)))
    ensures p.movie(tmdbId).TransportError? ==> r == Err(TmdbApi(MovieDetailsError))
  {
    match p.movie(tmdbId)
    case TransportError => Err(TmdbApi(MovieDetailsError))
    case NullBody => Err(TmdbApi("Film TMDB non trouvé avec l'ID: " + Decimal(tmdbId)))
    case Body(d) => Ok(d)
  }

  /** getSerieDetails, the same for series. */
  function SerieDetails(p: Provider, tmdbId: int): (r: Result<SerieDto>)
    ensures r.Ok? <==> p.tv(tmdbId).Body?
    ensures r.Ok? ==> r.value == p.tv(tmdbId).payload
    ensures p.tv(tmdbId).NullBody? ==> r == Err(TmdbApi("Série TMDB non trouvée avec l'ID: " + Decimal(tmdbId)))
    ensures p.tv(tmdbId).TransportError? ==> r == Err(TmdbApi(SerieDetailsError))
  {
    match p.tv(tmdbId)
    case TransportError => Err(TmdbApi(SerieDetailsError))
    case NullBody => Err(TmdbApi("Série TMDB non trouvée avec l'ID: " + Decimal(tmdbId)))
    case Body(d) => Ok(d)
  }

  /** `getMovieDetailsAsync(id).join()`: the same value; a failure arrives wrapped by join(). */
  function JoinMovieDetailsAsync(p: Provider, tmdbId: int): (r: Result<MovieDto>)
    ensures r.Ok? <==> MovieDetails(p, tmdbId).Ok?
    ensures r.Ok? ==> r.value == MovieDetails(p, tmdbId).value
    ensures r.Err? ==> r.error == Completion(MovieDetails(p, tmdbId).error)
  {
    match MovieDetails(p, tmdbId)
    case Ok(d) => Ok(d)
    case Err(e) => Err(Completion(e))
  }

  /** `getSerieDetailsAsync(id).join()`. */
  function JoinSerieDetailsAsync(p: Provider, tmdbId: int): (r: Result<SerieDto>)
    ensures r.Ok? <==> SerieDetails(p, tmdbId).Ok?
    ensures r.Ok? ==> r.value == SerieDetails(p, tmdbId).value
    ensures r.Err? ==> r.error == Completion(SerieDetails(p, tmdbId).error)
  {
    match SerieDetails(p, tmdbId)
    case Ok(d) => Ok(d)
    case Err(e) => Err(Completion(e))
  }
}
