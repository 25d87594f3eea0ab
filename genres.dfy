/** The genre catalog service: lookups, the admin listing, the per-genre
    "collections" shown on the front page, and admin create/update/delete. */
module Genres {
  import opened Store
  import Movies

  /** A stored genre document. */
  datatype Genre = Genre(
    id: Id,
    name: string,
    slug: string,
    description: string,
    icon: string,
    createdAt: int)

  /** The body of an admin update (CreateGenreDto). */
  datatype GenreDto = GenreDto(name: string, slug: string, description: string, icon: string)

  /** One front-page entry (ICollection): the genre and the big poster of its
      first movie. */
  datatype Collection = Collection(id: Id, image: string, slug: string, title: string)

  function IdOf(g: Genre): Id { g.id }
  function CreatedAt(g: Genre): int { g.createdAt }

  function HasId(id: Id): Genre -> bool { (g: Genre) => g.id == id }
  function HasSlug(slug: string): Genre -> bool { (g: Genre) => g.slug == slug }

  /** A freshly created genre: name, slug, description and icon all empty. */
  function Blank(id: Id, now: int): Genre {
    Genre(id, "", "", "", "", now)
  }

  /** The fields of a stored genre that an update body carries. */
  function DtoOf(g: Genre): GenreDto {
    GenreDto(g.name, g.slug, g.description, g.icon)
  }

  /** The stored genre after `findByIdAndUpdate(id, dto)`: the DTO's fields
      replace the stored ones; id and creation time stay. */
  function Apply(g: Genre, dto: GenreDto): (r: Genre)
    ensures DtoOf(r) == dto
    ensures r.id == g.id && r.createdAt == g.createdAt
  {
    g.(name := dto.name, slug := dto.slug, description := dto.description, icon := dto.icon)
  }

  /** A later update replaces everything an earlier one wrote, and writing
      back a genre's own fields changes nothing. */
  lemma ApplyLastWins(g: Genre, d1: GenreDto, d2: GenreDto)
    ensures Apply(Apply(g, d1), d2) == Apply(g, d2)
    ensures Apply(g, DtoOf(g)) == g
  {
  }

  /** findOne({slug}): the genre with that slug, or NotFound. */
  function BySlug(genres: seq<Genre>, slug: string): (r: Result<Genre>)
    ensures r.Err? <==> forall g :: g in genres ==> g.slug != slug
    ensures r.Err? ==> r.error == NotFound("Genre Not Found")
    ensures r.Ok? ==> r.value in genres && r.value.slug == slug
    ensures r.Ok? ==> exists i :: && 0 <= i < |genres| && genres[i] == r.value
                                  && forall j :: 0 <= j < i ==> genres[j].slug != slug
  {
    match FirstIndex(genres, HasSlug(slug))
    case None => Err(NotFound("Genre Not Found"))
    case Some(i) => Ok(genres[i])
  }

  /** findById: the genre with that id, or NotFound. */
  function ById(genres: seq<Genre>, id: Id): (r: Result<Genre>)
    ensures r.Err? <==> forall g :: g in genres ==> g.id != id
    ensures r.Err? ==> r.error == NotFound("Genre not found")
    ensures r.Ok? ==> r.value in genres && r.value.id == id
  {
    match FirstIndex(genres, HasId(id))
    case None => Err(NotFound("Genre not found"))
    case Some(i) => Ok(genres[i])
  }

  /** getAll() without a search term: every genre, newest first. */
  function Newest(genres: seq<Genre>): (r: seq<Genre>)
    ensures SortedDesc(r, CreatedAt)
    ensures multiset(r) == multiset(genres)
    ensures |r| == |genres|
  {
    SortDesc(genres, CreatedAt)
  }

  /** The search filter: `matches(term, field)` stands for testing `field`
      against `new RegExp(term, 'i')`; a genre matches on name, slug or
      description. */
  function Matching(term: string, matches: (string, string) -> bool): Genre -> bool {
    (g: Genre) => matches(term, g.name) || matches(term, g.slug) || matches(term, g.description)
  }

  /** getAll(searchTerm): the genres matching a non-empty search term (every
      genre when it is absent or empty), newest first. */
  function GetAll(genres: seq<Genre>, searchTerm: Option<string>, matches: (string, string) -> bool): (r: seq<Genre>)
    ensures SortedDesc(r, CreatedAt)
    ensures !Truthy(searchTerm) ==> multiset(r) == multiset(genres)
    ensures Truthy(searchTerm) ==> forall g :: g in r <==> g in genres && Matching(searchTerm.value, matches)(g)
  {
    if Truthy(searchTerm) then
      var found := Filter(genres, Matching(searchTerm.value, matches));
      var r := Newest(found);
      assert forall g :: g in r <==> g in multiset(found);
      r
    else Newest(genres)
  }

  /** The front-page entry of one genre: nothing (`undefined`) when no movie
      lists the genre; otherwise the genre's id, slug and name with the big
      poster of the first such movie in natural order. */
  function CollectionOf(g: Genre, movies: seq<Movies.Movie>): (c: Option<Collection>)
    ensures c.None? <==> forall m :: m in movies ==> g.id !in m.genres
    ensures match FirstIndex(movies, Movies.InGenres([g.id]))
      case None => c.None?
      case Some(i) => c == Some(Collection(g.id, movies[i].bigPoster, g.slug, g.name))
  {
    var found := Movies.ByGenres(movies, [g.id]);
    FilterHead(movies, Movies.InGenres([g.id]));
    assert forall m :: Movies.SharesGenre(m, [g.id]) <==> g.id in m.genres by {
      forall m ensures Movies.SharesGenre(m, [g.id]) <==> g.id in m.genres {
        if g.id in m.genres {
          assert g.id in m.genres && g.id in [g.id];
        }
      }
    }
    if |found| == 0 then None
    else Some(Collection(g.id, found[0].bigPoster, g.slug, g.name))
  }

  /** getCollections: one slot per genre, in getAll() order; a genre without
      movies keeps its slot, empty. */
  function Collections(genres: seq<Genre>, movies: seq<Movies.Movie>): (r: seq<Option<Collection>>)
    ensures |r| == |genres|
    ensures forall i :: 0 <= i < |r| ==> r[i] == CollectionOf(Newest(genres)[i], movies)
  {
    var order := Newest(genres);
    seq(|order|, i requires 0 <= i < |order| => CollectionOf(order[i], movies))
  }

  /** A slot is filled exactly when its genre has a movie, and then carries
      that genre's id, slug and name. */
  lemma CollectionSlot(genres: seq<Genre>, movies: seq<Movies.Movie>, i: nat)
    requires i < |genres|
    ensures var g := Newest(genres)[i];
      && g in genres
      && (Collections(genres, movies)[i].None? <==> forall m :: m in movies ==> g.id !in m.genres)
      && (Collections(genres, movies)[i].Some? ==>
            var c := Collections(genres, movies)[i].value;
            c.id == g.id && c.slug == g.slug && c.title == g.name)
  {
    var order := Newest(genres);
    assert order[i] in multiset(order);
  }

  /** The Genre collection. */
  class GenreService {
    var genres: seq<Genre>
    /** The next id the store will hand out. */
    var nextId: Id

    /** Ids are unique and all below `nextId`. */
    ghost predicate Valid()
      reads this
    {
      && DistinctKeys(genres, IdOf)
      && forall g :: g in genres ==> g.id < nextId
    }

    constructor ()
      ensures Valid() && genres == []
    {
      genres := [];
      nextId := 0;
    }

    /** Inserts a blank genre under a fresh id and returns the id. */
    method Create(now: int) returns (id: Id)
      requires Valid()
      modifies this
      ensures Valid()
      ensures forall g :: g in old(genres) ==> g.id != id
      ensures genres == old(genres) + [Blank(id, now)]
    {
      id := nextId;
      DistinctAfterAppend(genres, IdOf, Blank(id, now));
      genres := genres + [Blank(id, now)];
      nextId := nextId + 1;
    }

    /** Overwrites the genre with `id` from `dto` and returns it, or NotFound. */
    method Update(id: Id, dto: GenreDto) returns (r: Result<Genre>)
      requires Valid()
      modifies this
      ensures Valid() && nextId == old(nextId)
      ensures match FirstIndex(old(genres), HasId(id))
        case None =>
          r == Err(NotFound("Genre not found")) && genres == old(genres)
        case Some(i) =>
          && genres == old(genres)[i := Apply(old(genres)[i], dto)]
          && r == Ok(genres[i])
    {
      match FirstIndex(genres, HasId(id))
      case None =>
        r := Err(NotFound("Genre not found"));
      case Some(i) =>
        var updated := Apply(genres[i], dto);
        DistinctAfterReplace(genres, IdOf, i, updated);
        genres := genres[i := updated];
        r := Ok(updated);
    }

    /** Removes the genre with `id` and returns it, or NotFound. */
    method Delete(id: Id) returns (r: Result<Genre>)
      requires Valid()
      modifies this
      ensures Valid() && nextId == old(nextId)
      ensures match FirstIndex(old(genres), HasId(id))
        case None =>
          r == Err(NotFound("Genre not found")) && genres == old(genres)
        case Some(i) =>
          && r == Ok(old(genres)[i])
          && genres == old(genres)[..i] + old(genres)[i + 1..]
          && |genres| == |old(genres)| - 1
          && forall g :: g in genres ==> g.id != id
    {
      match FirstIndex(genres, HasId(id))
      case None =>
        r := Err(NotFound("Genre not found"));
      case Some(i) =>
        r := Ok(genres[i]);
        DistinctAfterRemove(genres, IdOf, i);
        genres := genres[..i] + genres[i + 1..];
        forall g | g in genres ensures g.id != id {
          var k :| 0 <= k < |genres| && genres[k] == g;
          var k' := if k < i then k else k + 1;
          assert g == old(genres)[k'] && k' != i;
        }
    }
  }
}
