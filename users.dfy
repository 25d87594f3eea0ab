/** The user service: profile lookup and update (with the password rehashed
    only when a new one is given and the email kept unique), the admin
    listing, count and delete, and the favourites toggle. */
module Users {
  import opened Store

  /** A stored user document; `password` holds the salted hash. */
  datatype User = User(
    id: Id,
    email: string,
    password: string,
    isAdmin: bool,
    favourites: seq<Id>,
    createdAt: int)

  /** A user as the admin listing returns it: without the password. */
  datatype PublicUser = PublicUser(
    id: Id,
    email: string,
    isAdmin: bool,
    favourites: seq<Id>,
    createdAt: int)

  /** The body of a profile update (UpdateUserDto): the email is always
      present, the password and the admin flag may be left out. */
  datatype UpdateUserDto = UpdateUserDto(email: string, password: Option<string>, isAdmin: Option<bool>)

  function IdOf(u: User): Id { u.id }
  function EmailOf(u: User): string { u.email }
  function Joined(u: PublicUser): int { u.createdAt }

  function HasId(id: Id): User -> bool { (u: User) => u.id == id }
  function HasEmail(email: string): User -> bool { (u: User) => u.email == email }
  function Other(movieId: Id): Id -> bool { (x: Id) => x != movieId }

  function Public(u: User): PublicUser {
    PublicUser(u.id, u.email, u.isAdmin, u.favourites, u.createdAt)
  }

  /** `select('-password')`: every user, in order, without the password. */
  function Publics(users: seq<User>): (r: seq<PublicUser>)
    ensures |r| == |users|
    ensures forall i :: 0 <= i < |users| ==> r[i] == Public(users[i])
    ensures forall u :: u in users ==> Public(u) in r
    ensures forall p :: p in r ==> exists u :: u in users && Public(u) == p
  {
    var r := seq(|users|, i requires 0 <= i < |users| => Public(users[i]));
    assert forall i :: 0 <= i < |users| ==> r[i] == Public(users[i]);
    r
  }

  /** findById: the user with that id, or NotFound. */
  function ById(users: seq<User>, id: Id): (r: Result<User>)
    ensures r.Err? <==> forall u :: u in users ==> u.id != id
    ensures r.Err? ==> r.error == NotFound("User not found")
    ensures r.Ok? ==> r.value in users && r.value.id == id
  {
    match FirstIndex(users, HasId(id))
    case None => Err(NotFound("User not found"))
    case Some(i) => Ok(users[i])
  }

  /** The ids of the stored users. */
  function Ids(users: seq<User>): set<Id> {
    set u | u in users :: u.id
  }

  /** getCount: the number of user documents, which is the number of
      distinct users while ids are unique. */
  function Count(users: seq<User>): (n: nat)
    ensures DistinctKeys(users, IdOf) ==> n == |Ids(users)|
  {
    CountedWhenDistinct(users);
    |users|
  }

  lemma CountedWhenDistinct(users: seq<User>)
    ensures DistinctKeys(users, IdOf) ==> |Ids(users)| == |users|
  {
    if DistinctKeys(users, IdOf) {
      DistinctIdsCounted(users);
    }
  }

  lemma {:induction false} DistinctIdsCounted(users: seq<User>)
    requires DistinctKeys(users, IdOf)
    ensures |Ids(users)| == |users|
  {
    if |users| > 0 {
      var rest := users[1..];
      DistinctAfterRemove(users, IdOf, 0);
      assert users[..0] + users[1..] == rest;
      DistinctIdsCounted(rest);
      IdsOfTail(users);
    }
  }

  /** The ids of a non-empty list: the head's, plus the tail's, which cannot
      contain it while ids are unique. */
  lemma IdsOfTail(users: seq<User>)
    requires DistinctKeys(users, IdOf) && |users| > 0
    ensures Ids(users) == {users[0].id} + Ids(users[1..])
    ensures users[0].id !in Ids(users[1..])
  {
    var rest := users[1..];
    assert users == [users[0]] + rest;
    forall u | u in rest ensures u.id != users[0].id {
      var k :| 0 <= k < |rest| && rest[k] == u;
      assert users[k + 1] == u;
      assert IdOf(users[0]) != IdOf(users[k + 1]);
    }
  }

  /** getAll(searchTerm): the users whose email matches a non-empty search
      term (every user when it is absent or empty), newest first, without
      their passwords. `matches(term, field)` stands for testing `field`
      against `new RegExp(term, 'i')`. */
  function GetAll(users: seq<User>, searchTerm: Option<string>, matches: (string, string) -> bool): (r: seq<PublicUser>)
    ensures SortedDesc(r, Joined)
    ensures !Truthy(searchTerm) ==> multiset(r) == multiset(Publics(users)) && |r| == |users|
    ensures Truthy(searchTerm) ==> forall p :: p in r ==> matches(searchTerm.value, p.email)
    ensures Truthy(searchTerm) ==> forall u :: u in users && matches(searchTerm.value, u.email) ==> Public(u) in r
  {
    if Truthy(searchTerm) then
      var found := Filter(users, EmailMatching(searchTerm.value, matches));
      var r := SortDesc(Publics(found), Joined);
      assert forall p :: p in r ==> matches(searchTerm.value, p.email) by {
        forall p | p in r ensures matches(searchTerm.value, p.email) {
          assert p in multiset(Publics(found));
          var u :| u in found && Public(u) == p;
        }
      }
      assert forall u :: u in users && matches(searchTerm.value, u.email) ==> Public(u) in r by {
        forall u | u in users && matches(searchTerm.value, u.email) ensures Public(u) in r {
          assert EmailMatching(searchTerm.value, matches)(u);
          assert Public(u) in multiset(Publics(found));
        }
      }
      r
    else SortDesc(Publics(users), Joined)
  }

  /** The search filter on email. */
  function EmailMatching(term: string, matches: (string, string) -> bool): User -> bool {
    (u: User) => matches(term, u.email)
  }

  /** The new favourites list: a movie id already present is removed (every
      copy of it), otherwise it is appended at the end. */
  function Toggled(favourites: seq<Id>, movieId: Id): (r: seq<Id>)
    ensures movieId in r <==> movieId !in favourites
    ensures forall x :: x != movieId ==> (x in r <==> x in favourites)
    ensures movieId !in favourites ==> r == favourites + [movieId]
    ensures movieId in favourites ==> IsSubsequence(r, favourites)
    ensures movieId in favourites ==> multiset(r) == multiset(favourites)[movieId := 0]
  {
    if movieId in favourites then
      var r := Filter<Id>(favourites, Other(movieId));
      assert multiset(r)[movieId] == 0;
      r
    else favourites + [movieId]
  }

  /** Toggling twice gives back the same ids: an absent id leaves the list
      exactly as it was, a present one ends up once, at the end. */
  lemma ToggleTwice(favourites: seq<Id>, movieId: Id)
    ensures forall x :: x in Toggled(Toggled(favourites, movieId), movieId) <==> x in favourites
    ensures movieId !in favourites ==> Toggled(Toggled(favourites, movieId), movieId) == favourites
    ensures movieId in favourites ==>
      Toggled(Toggled(favourites, movieId), movieId) == Toggled(favourites, movieId) + [movieId]
  {
    if movieId !in favourites {
      FilterAppend<Id>(favourites, [movieId], Other(movieId));
      FilterKeepsAll<Id>(favourites, Other(movieId));
    }
  }

  /** When the id was the last entry and occurred only there, toggling twice
      restores the list order too. */
  lemma ToggleTwiceLast(rest: seq<Id>, movieId: Id)
    requires movieId !in rest
    ensures Toggled(Toggled(rest + [movieId], movieId), movieId) == rest + [movieId]
  {
    FilterAppend<Id>(rest, [movieId], Other(movieId));
    FilterKeepsAll<Id>(rest, Other(movieId));
  }

  /** Anywhere else, toggling twice moves the id to the end. */
  lemma ToggleTwiceReorders()
    ensures Toggled(Toggled([1, 2], 1), 1) == [2, 1]
  {
    assert Filter<Id>([2], Other(1)) == [2];
    assert Filter<Id>([1, 2], Other(1)) == [2] by {
      assert [1, 2][1..] == [2];
    }
  }

  /** `findOne({email})` finds a user with a different id: the first user in
      natural order with that email is not user `id`. */
  function EmailTaken(users: seq<User>, id: Id, email: string): (taken: bool)
    ensures taken <==> exists j :: && 0 <= j < |users| && users[j].email == email && users[j].id != id
                                   && forall k :: 0 <= k < j ==> users[k].email != email
  {
    match FirstIndex(users, HasEmail(email))
    case None => false
    case Some(j) => users[j].id != id
  }

  /** With unique emails, the email is taken exactly when some other user owns it. */
  lemma EmailTakenByOther(users: seq<User>, id: Id, email: string)
    requires DistinctKeys(users, EmailOf)
    ensures EmailTaken(users, id, email) <==> exists u :: u in users && u.email == email && u.id != id
  {
    match FirstIndex(users, HasEmail(email))
    case None =>
    case Some(j) =>
      if u :| u in users && u.email == email && u.id != id {
        var k :| 0 <= k < |users| && users[k] == u;
        assert EmailOf(users[k]) == EmailOf(users[j]);
        assert k == j;
      }
  }

  /** A user may keep their own email. */
  lemma OwnEmailAllowed(users: seq<User>, u: User)
    requires DistinctKeys(users, EmailOf)
    requires u in users
    ensures !EmailTaken(users, u.id, u.email)
  {
    EmailTakenByOther(users, u.id, u.email);
  }

  /** The User collection. Users are registered elsewhere; this service
      reads, updates and deletes them. */
  class UserService {
    var users: seq<User>

    /** Ids are unique, and so are emails (the unique index on email). */
    ghost predicate Valid()
      reads this
    {
      DistinctKeys(users, IdOf) && DistinctKeys(users, EmailOf)
    }

    constructor (users: seq<User>)
      requires DistinctKeys(users, IdOf) && DistinctKeys(users, EmailOf)
      ensures Valid() && this.users == users
    {
      this.users := users;
    }

    /** Loads the user, refuses an email another user owns, then sets the
        password hash (only when a password is given), the email (always)
        and the admin flag (only when given, true or false) and saves.
        `hash(password, salt)` stands for bcrypt with a freshly drawn salt. */
    method UpdateProfile(id: Id, dto: UpdateUserDto, salt: string, hash: (string, string) -> string)
      returns (r: Result<()>)
      requires Valid()
      modifies this
      ensures Valid()
      ensures r.Err? ==> users == old(users)
      ensures FirstIndex(old(users), HasId(id)).None? ==> r == Err(NotFound("User not found"))
      ensures FirstIndex(old(users), HasId(id)).Some? && EmailTaken(old(users), id, dto.email) ==>
                r == Err(NotFound("Email is already taken"))
      ensures FirstIndex(old(users), HasId(id)).Some? && !EmailTaken(old(users), id, dto.email) ==>
                var i := FirstIndex(old(users), HasId(id)).value;
                var before := old(users)[i];
                && r == Ok(())
                && |users| == |old(users)|
                && users == old(users)[i := users[i]]
                && users[i].password == (if Truthy(dto.password) then hash(dto.password.value, salt) else before.password)
                && users[i].email == dto.email
                && users[i].isAdmin == (if dto.isAdmin.Some? then dto.isAdmin.value else before.isAdmin)
                && users[i].id == before.id
                && users[i].favourites == before.favourites
                && users[i].createdAt == before.createdAt
    {
      var found := FirstIndex(users, HasId(id));
      if found.None? {
        return Err(NotFound("User not found"));
      }
      var i := found.value;
      if EmailTaken(users, id, dto.email) {
        return Err(NotFound("Email is already taken"));
      }
      var user := users[i];
      if Truthy(dto.password) {
        user := user.(password := hash(dto.password.value, salt));
      }
      user := user.(email := dto.email);
      if dto.isAdmin.Some? {
        user := user.(isAdmin := dto.isAdmin.value);
      }
      NewEmailKeepsUnique(users, i, user);
      DistinctAfterReplace(users, IdOf, i, user);
      users := users[i := user];
      r := Ok(());
    }

    /** Removes the user with `id` and returns it; null (None), without
        throwing, when there is none. */
    method Delete(id: Id) returns (r: Option<User>)
      requires Valid()
      modifies this
      ensures Valid()
      ensures match FirstIndex(old(users), HasId(id))
        case None =>
          r == None && users == old(users)
        case Some(i) =>
          && r == Some(old(users)[i])
          && users == old(users)[..i] + old(users)[i + 1..]
          && Count(users) == Count(old(users)) - 1
    {
      match FirstIndex(users, HasId(id))
      case None =>
        r := None;
      case Some(i) =>
        r := Some(users[i]);
        DistinctAfterRemove(users, IdOf, i);
        DistinctAfterRemove(users, EmailOf, i);
        users := users[..i] + users[i + 1..];
    }

    /** Writes the toggled favourites (computed from the request's copy of the
        user) to the stored user with that id; nothing happens when that user
        is gone. No other field and no other user changes. */
    method ToggleFavourite(movieId: Id, user: User)
      requires Valid()
      modifies this
      ensures Valid()
      ensures match FirstIndex(old(users), HasId(user.id))
        case None =>
          users == old(users)
        case Some(i) =>
          users == old(users)[i := old(users)[i].(favourites := Toggled(user.favourites, movieId))]
    {
      match FirstIndex(users, HasId(user.id))
      case None =>
      case Some(i) =>
        var updated := users[i].(favourites := Toggled(user.favourites, movieId));
        DistinctAfterReplace(users, IdOf, i, updated);
        DistinctAfterReplace(users, EmailOf, i, updated);
        users := users[i := updated];
    }
  }

  /** The email check of updateProfile keeps emails unique: a new email no
      other user owns may be written to user `i`. */
  lemma NewEmailKeepsUnique(users: seq<User>, i: nat, user: User)
    requires DistinctKeys(users, IdOf) && DistinctKeys(users, EmailOf)
    requires i < |users| && user.id == users[i].id
    requires !EmailTaken(users, user.id, user.email)
    ensures DistinctKeys(users[i := user], EmailOf)
  {
    var t := users[i := user];
    forall a, b | 0 <= a < b < |t| ensures EmailOf(t[a]) != EmailOf(t[b]) {
      if a != i && b != i {
        assert t[a] == users[a] && t[b] == users[b];
      } else {
        var k := if a == i then b else a;
        assert t[k] == users[k] && k != i;
        match FirstIndex(users, HasEmail(user.email))
        case None =>
        case Some(j) =>
          assert IdOf(users[j]) == IdOf(users[i]);
          assert j == i;
          if k > j {
            assert EmailOf(users[j]) != EmailOf(users[k]);
          }
      }
    }
  }
}
