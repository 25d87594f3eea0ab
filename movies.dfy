/** The movie catalog service: queries over the Movie collection, the admin
    create/update/delete operations, the view counter, and the announcement
    posted to the messaging bot when a movie is first published. */
module Movies {
  import opened Store

  /** A stored movie document. */
  datatype Movie = Movie(
    id: Id,
    title: string,
    slug: string,
    poster: string,
    bigPoster: string,
    videoURL: string,
    rating: real,
    countOpened: nat,
    genres: seq<Id>,
    actors: seq<Id>,
    isSendTelegram: bool,
    createdAt: int)

  /** The body of an admin update (CreateMovieDto); `isSendTelegram` is
      false when the client leaves it out. */
  datatype MovieDto = MovieDto(
    title: string,
    slug: string,
    poster: string,
    bigPoster: string,
    videoURL: string,
    genres: seq<Id>,
    actors: seq<Id>,
    isSendTelegram: bool)

  /** One call to the messaging bot: a photo, or an HTML message with one
      inline link button. */
  datatype Notification =
    | Photo(url: string)
    | Message(html: string, buttonUrl: string, buttonText: string)

  const AnnouncementPhoto: string :=
    "https://images.unsplash.com/photo-1668814454344-d1280b03c075?ixlib=rb-4.0.3&ixid=MnwxMjA3fDB8MHxwaG90by1wYWdlfHx8fGVufDB8fHx8&auto=format&fit=crop&w=2971&q=80"
  const AnnouncementButtonUrl: string := "https://www.youtube.com/"
  const AnnouncementButtonText: string := "Better watch YT"

  /** The two bot calls announcing a movie: the fixed photo, then the title in bold. */
  function Announcement(title: string): seq<Notification> {
    [Photo(AnnouncementPhoto),
     Message("<b>" + title + "</b>", AnnouncementButtonUrl, AnnouncementButtonText)]
  }

  function IdOf(m: Movie): Id { m.id }
  function Popularity(m: Movie): int { m.countOpened }

  function HasId(id: Id): Movie -> bool { (m: Movie) => m.id == id }
  function HasSlug(slug: string): Movie -> bool { (m: Movie) => m.slug == slug }
  function HasActor(actorId: Id): Movie -> bool { (m: Movie) => actorId in m.actors }
  function IsOpened(): Movie -> bool { (m: Movie) => m.countOpened > 0 }

  /** The movie lists at least one of the genres in `genreIds` ($in). */
  predicate SharesGenre(m: Movie, genreIds: seq<Id>) {
    exists g :: g in m.genres && g in genreIds
  }

  function InGenres(genreIds: seq<Id>): Movie -> bool { (m: Movie) => SharesGenre(m, genreIds) }

  /** A freshly created movie: every text field empty, no genres or actors. */
  function Blank(id: Id, now: int): Movie {
    Movie(id, "", "", "", "", "", 0.0, 0, [], [], false, now)
  }

  /** The fields of a stored movie that an update body carries. */
  function DtoOf(m: Movie): MovieDto {
    MovieDto(m.title, m.slug, m.poster, m.bigPoster, m.videoURL, m.genres, m.actors, m.isSendTelegram)
  }

  /** The stored movie after `findByIdAndUpdate(id, dto)`: the DTO's fields
      replace the stored ones; id, rating, view count and creation time stay. */
  function Apply(m: Movie, dto: MovieDto): (r: Movie)
    ensures DtoOf(r) == dto
    ensures r.id == m.id && r.rating == m.rating && r.countOpened == m.countOpened && r.createdAt == m.createdAt
  {
    m.(title := dto.title, slug := dto.slug, poster := dto.poster,
       bigPoster := dto.bigPoster, videoURL := dto.videoURL,
       genres := dto.genres, actors := dto.actors,
       isSendTelegram := dto.isSendTelegram)
  }

  /** A later update replaces everything an earlier one wrote, and writing
      back a movie's own fields changes nothing. */
  lemma ApplyLastWins(m: Movie, d1: MovieDto, d2: MovieDto)
    ensures Apply(Apply(m, d1), d2) == Apply(m, d2)
    ensures Apply(m, DtoOf(m)) == m
  {
  }

  /** The movies that list `actorId`, in natural order; the empty list when
      none do. The service's `!doc` test is on an array, which is never falsy,
      so it never throws. */
  function ByActor(movies: seq<Movie>, actorId: Id): (r: Result<seq<Movie>>)
    ensures r.Ok?
    ensures forall m :: m in r.value <==> m in movies && actorId in m.actors
    ensures IsSubsequence(r.value, movies)
    ensures forall m :: multiset(r.value)[m] == if actorId in m.actors then multiset(movies)[m] else 0
  {
    Ok(Filter(movies, HasActor(actorId)))
  }

  /** The movies that share at least one genre with `genreIds`, in natural order. */
  function ByGenres(movies: seq<Movie>, genreIds: seq<Id>): (r: seq<Movie>)
    ensures forall m :: m in r <==> m in movies && SharesGenre(m, genreIds)
    ensures forall m :: multiset(r)[m] <= multiset(movies)[m]
    ensures IsSubsequence(r, movies)
    ensures forall m :: multiset(r)[m] == if SharesGenre(m, genreIds) then multiset(movies)[m] else 0
  {
    Filter(movies, InGenres(genreIds))
  }

  /** With distinct ids in the store, byGenres lists every matching movie
      exactly once, however many of the requested genres it has. */
  lemma ByGenresOnce(movies: seq<Movie>, genreIds: seq<Id>, m: Movie)
    requires DistinctKeys(movies, IdOf)
    requires m in movies && SharesGenre(m, genreIds)
    ensures multiset(ByGenres(movies, genreIds))[m] == 1
  {
    DistinctOccursOnce(movies, IdOf, m);
  }

  /** byGenres of a concatenated id list is the union of the two queries. */
  lemma ByGenresUnion(movies: seq<Movie>, ids1: seq<Id>, ids2: seq<Id>, m: Movie)
    ensures m in ByGenres(movies, ids1 + ids2) <==> m in ByGenres(movies, ids1) || m in ByGenres(movies, ids2)
  {
    if SharesGenre(m, ids1 + ids2) {
      var g :| g in m.genres && g in ids1 + ids2;
      assert g in ids1 || g in ids2;
    }
    if SharesGenre(m, ids1) {
      var g :| g in m.genres && g in ids1;
      assert g in ids1 + ids2;
    }
    if SharesGenre(m, ids2) {
      var g :| g in m.genres && g in ids2;
      assert g in ids1 + ids2;
    }
  }

  /** findOne({slug}): the movie with that slug, or NotFound. */
  function BySlug(movies: seq<Movie>, slug: string): (r: Result<Movie>)
    ensures r.Err? <==> forall m :: m in movies ==> m.slug != slug
    ensures r.Err? ==> r.error == NotFound("Movies Not Found")
    ensures r.Ok? ==> r.value in movies && r.value.slug == slug
    ensures r.Ok? ==> exists i :: && 0 <= i < |movies| && movies[i] == r.value
                                  && forall j :: 0 <= j < i ==> movies[j].slug != slug
  {
    match FirstIndex(movies, HasSlug(slug))
    case None => Err(NotFound("Movies Not Found"))
    case Some(i) => Ok(movies[i])
  }

  /** findById: the movie with that id, or NotFound. */
  function ById(movies: seq<Movie>, id: Id): (r: Result<Movie>)
    ensures r.Err? <==> forall m :: m in movies ==> m.id != id
    ensures r.Err? ==> r.error == NotFound("Movie not found")
    ensures r.Ok? ==> r.value in movies && r.value.id == id
  {
    match FirstIndex(movies, HasId(id))
    case None => Err(NotFound("Movie not found"))
    case Some(i) => Ok(movies[i])
  }

  /** The movies opened at least once, most opened first. */
  function MostPopular(movies: seq<Movie>): (r: seq<Movie>)
    ensures SortedDesc(r, Popularity)
    ensures forall m :: m in r <==> m in movies && m.countOpened > 0
    ensures forall m :: multiset(r)[m] == if m.countOpened > 0 then multiset(movies)[m] else 0
  {
    var viewed := Filter(movies, IsOpened());
    var r := SortDesc(viewed, Popularity);
    assert forall m :: m in r <==> m in multiset(viewed);
    r
  }

  /** The Movie collection together with the messages sent to the bot. */
  class MovieService {
    var movies: seq<Movie>
    /** The next id the store will hand out. */
    var nextId: Id
    /** Every bot call made so far, oldest first. */
    ghost var outbox: seq<Notification>

    /** Ids are unique and all below `nextId`. */
    ghost predicate Valid()
      reads this
    {
      && DistinctKeys(movies, IdOf)
      && forall m :: m in movies ==> m.id < nextId
    }

    constructor ()
      ensures Valid()
      ensures movies == [] && outbox == []
    {
      movies := [];
      nextId := 0;
      outbox := [];
    }

    /** Raises the view count of the movie with `slug` by one and returns the
        updated movie; NotFound, and no change, when no movie has that slug. */
    method UpdateCountOpened(slug: string) returns (r: Result<Movie>)
      requires Valid()
      modifies this
      ensures Valid()
      ensures nextId == old(nextId) && outbox == old(outbox)
      ensures match FirstIndex(old(movies), HasSlug(slug))
        case None =>
          r == Err(NotFound("Movie not found")) && movies == old(movies)
        case Some(i) =>
          && movies == old(movies)[i := old(movies)[i].(countOpened := old(movies)[i].countOpened + 1)]
          && r == Ok(movies[i])
          && r.value.countOpened == old(movies)[i].countOpened + 1
    {
      match FirstIndex(movies, HasSlug(slug))
      case None =>
        r := Err(NotFound("Movie not found"));
      case Some(i) =>
        var bumped := movies[i].(countOpened := movies[i].countOpened + 1);
        DistinctAfterReplace(movies, IdOf, i, bumped);
        movies := movies[i := bumped];
        r := Ok(bumped);
    }

    /** Sets the rating of the movie with `id` and returns it; returns null
        (None) without throwing when there is none. */
    method UpdateRating(id: Id, newRating: real) returns (r: Option<Movie>)
      requires Valid()
      modifies this
      ensures Valid()
      ensures nextId == old(nextId) && outbox == old(outbox)
      ensures match FirstIndex(old(movies), HasId(id))
        case None =>
          r == None && movies == old(movies)
        case Some(i) =>
          && movies == old(movies)[i := old(movies)[i].(rating := newRating)]
          && r == Some(movies[i])
    {
      match FirstIndex(movies, HasId(id))
      case None =>
        r := None;
      case Some(i) =>
        var rated := movies[i].(rating := newRating);
        DistinctAfterReplace(movies, IdOf, i, rated);
        movies := movies[i := rated];
        r := Some(rated);
    }

    /** Inserts a blank movie under a fresh id and returns the id. */
    method Create(now: int) returns (id: Id)
      requires Valid()
      modifies this
      ensures Valid()
      ensures forall m :: m in old(movies) ==> m.id != id
      ensures movies == old(movies) + [Blank(id, now)]
      ensures outbox == old(outbox)
    {
      id := nextId;
      DistinctAfterAppend(movies, IdOf, Blank(id, now));
      movies := movies + [Blank(id, now)];
      nextId := nextId + 1;
    }

    /** Posts the announcement of `dto.title` to the bot. */
    method SendNotification(dto: MovieDto)
      modifies this
      ensures outbox == old(outbox) + Announcement(dto.title)
      ensures movies == old(movies) && nextId == old(nextId)
    {
      outbox := outbox + Announcement(dto.title);
    }

    /** Admin update. When the body's flag is not set, the announcement is sent
        first and the flag is set to true in the body that is written (`body`,
        a copy: the caller's value is untouched); only then is the movie looked
        up, so an unknown id still sends the announcement before NotFound. */
    method Update(id: Id, dto: MovieDto) returns (r: Result<Movie>)
      requires Valid()
      modifies this
      ensures Valid()
      ensures nextId == old(nextId)
      ensures outbox == old(outbox) + (if dto.isSendTelegram then [] else Announcement(dto.title))
      ensures match FirstIndex(old(movies), HasId(id))
        case None =>
          r == Err(NotFound("Movie not found")) && movies == old(movies)
        case Some(i) =>
          && movies == old(movies)[i := Apply(old(movies)[i], dto.(isSendTelegram := true))]
          && r == Ok(movies[i])
          && r.value.isSendTelegram
    {
      var body := dto;
      if !body.isSendTelegram {
        SendNotification(body);
        body := body.(isSendTelegram := true);
      }
      match FirstIndex(movies, HasId(id))
      case None =>
        r := Err(NotFound("Movie not found"));
      case Some(i) =>
        var updated := Apply(movies[i], body);
        DistinctAfterReplace(movies, IdOf, i, updated);
        movies := movies[i := updated];
        r := Ok(updated);
    }

    /** Removes the movie with `id` and returns it, or NotFound. */
    method Delete(id: Id) returns (r: Result<Movie>)
      requires Valid()
      modifies this
      ensures Valid()
      ensures nextId == old(nextId) && outbox == old(outbox)
      ensures match FirstIndex(old(movies), HasId(id))
        case None =>
          r == Err(NotFound("Movie not found")) && movies == old(movies)
        case Some(i) =>
          && r == Ok(old(movies)[i])
          && movies == old(movies)[..i] + old(movies)[i + 1..]
          && |movies| == |old(movies)| - 1
          && forall m :: m in movies ==> m.id != id
    {
      match FirstIndex(movies, HasId(id))
      case None =>
        r := Err(NotFound("Movie not found"));
      case Some(i) =>
        r := Ok(movies[i]);
        DistinctAfterRemove(movies, IdOf, i);
        movies := movies[..i] + movies[i + 1..];
        forall m | m in movies ensures m.id != id {
          var k :| 0 <= k < |movies| && movies[k] == m;
          var k' := if k < i then k else k + 1;
          assert m == old(movies)[k'] && k' != i;
        }
    }
  }
}
