/**
 * The server's user service over the user table: creation and partial update with the email
 * check, lookup, listing and deletion. The check keeps stored emails unique.
 */
module UserService {
  import opened Common
  import opened Model
  import opened Tables
  import opened BookingMapper

  datatype UserCreateDto = UserCreateDto(name: string, email: string)

  /** The body of an update: an absent field is left as it is. */
  datatype UserUpdateDto = UserUpdateDto(name: Option<string>, email: Option<string>)

  /** checkEmailUsed's query: findByEmail(email).isPresent(). */
  predicate EmailUsed(users: seq<User>, email: string) {
    exists k :: 0 <= k < |users| && users[k].email == email
  }

  ghost predicate UniqueEmails(users: seq<User>) {
    forall i, j :: 0 <= i < |users| && 0 <= j < |users| && users[i].email == users[j].email ==> i == j
  }

  /**
   * update's setters on the stored user: a present name replaces the name; a present email that
   * differs from the current one is checked first and fails with Duplicate when some user has it.
   */
  function UpdatedUser(users: seq<User>, existed: User, dto: UserUpdateDto): (r: Result<User>)
    ensures r.Err? <==> (dto.email.Some? && dto.email.value != existed.email && EmailUsed(users, dto.email.value))
    ensures r.Err? ==> r.error == Duplicate
    ensures r.Ok? ==> r.value.id == existed.id
    ensures r.Ok? ==> r.value.name == if dto.name.Some? then dto.name.value else existed.name
    ensures r.Ok? ==> r.value.email == if dto.email.Some? then dto.email.value else existed.email
  {
    var named := existed.(name := OrElse(dto.name, existed.name));
    if dto.email.Some? && existed.email != dto.email.value then
      if EmailUsed(users, dto.email.value) then Err(Duplicate) else Ok(named.(email := dto.email.value))
    else Ok(named)
  }

  /** Re-sending an update that succeeded changes nothing more, and no longer checks the email. */
  lemma UpdateIdempotent(users: seq<User>, others: seq<User>, existed: User, dto: UserUpdateDto)
    requires UpdatedUser(users, existed, dto).Ok?
    ensures UpdatedUser(others, UpdatedUser(users, existed, dto).value, dto) == UpdatedUser(users, existed, dto)
  {
  }

  /** An update naming the current email performs no duplicate check, even when that email is taken. */
  lemma SameEmailNotChecked(users: seq<User>, existed: User, name: Option<string>)
    ensures UpdatedUser(users, existed, UserUpdateDto(name, Some(existed.email))).Ok?
    ensures UpdatedUser(users, existed, UserUpdateDto(name, Some(existed.email))).value.email == existed.email
  {
  }

  class UserServiceImpl {
    var users: seq<User>
    var lastId: nat

    /** Ids are unique and issued by the counter; no two stored users share an email. */
    ghost predicate Valid()
      reads this
    {
      WellFormed(users, UserId, lastId) && UniqueEmails(users)
    }

    constructor ()
      ensures Valid() && users == [] && lastId == 0
    {
      users := [];
      lastId := 0;
    }

    /** findById: NotFound when no user has the id. */
    function FindById(id: nat): (r: Result<User>)
      reads this
      ensures r.Ok? ==> r.value in users && r.value.id == id
      ensures r.Err? <==> forall k :: 0 <= k < |users| ==> users[k].id != id
      ensures r.Err? ==> r.error == NotFound(UserEntity)
    {
      match Find(users, id, UserId)
      case None => Err(NotFound(UserEntity))
      case Some(u) => Ok(u)
    }

    function GetById(id: nat): (r: Result<UserDto>)
      reads this
      ensures r.Err? <==> FindById(id).Err?
      ensures r.Err? ==> r.error == NotFound(UserEntity)
      ensures r.Ok? ==> r.value == ToUserDto(FindById(id).value)
    {
      match FindById(id)
      case Err(e) => Err(e)
      case Ok(u) => Ok(ToUserDto(u))
    }

    /** getAll: every stored user, in table order. */
    function GetAll(): (r: seq<UserDto>)
      reads this
      ensures |r| == |users|
      ensures forall k :: 0 <= k < |users| ==> r[k] == ToUserDto(users[k])
    {
      var stored := users;
      seq(|stored|, k requires 0 <= k < |stored| => ToUserDto(stored[k]))
    }

    /** create: Duplicate when the email is stored already; otherwise the user is appended with a fresh id. */
    method Create(dto: UserCreateDto) returns (r: Result<UserDto>)
      requires Valid()
      modifies this
      ensures Valid()
      ensures EmailUsed(old(users), dto.email) ==> r == Err(Duplicate) && users == old(users) && lastId == old(lastId)
      ensures !EmailUsed(old(users), dto.email) ==>
                && lastId == old(lastId) + 1
                && users == old(users) + [User(lastId, dto.name, dto.email)]
                && r == Ok(ToUserDto(users[|users| - 1]))
                && FindById(lastId) == Ok(users[|users| - 1])
    {
      if EmailUsed(users, dto.email) {
        r := Err(Duplicate);
        return;
      }
      var user := User(lastId + 1, dto.name, dto.email);
      FindAfterAppend(users, UserId, lastId, user, lastId + 1);
      users := users + [user];
      lastId := lastId + 1;
      r := Ok(ToUserDto(user));
    }

    /** update: NotFound for a missing id, Duplicate before any save, otherwise the user is replaced in place. */
    method Update(dto: UserUpdateDto, id: nat) returns (r: Result<UserDto>)
      requires Valid()
      modifies this
      ensures Valid() && lastId == old(lastId) && |users| == |old(users)|
      ensures old(FindById(id)).Err? ==> r == Err(NotFound(UserEntity)) && users == old(users)
      ensures old(FindById(id)).Ok? ==>
                var u := UpdatedUser(old(users), old(FindById(id)).value, dto);
                && (u.Err? ==> r == Err(Duplicate) && users == old(users))
                && (u.Ok? ==> r == Ok(ToUserDto(u.value)) && FindById(id) == Ok(u.value))
      ensures forall other :: other != id ==> FindById(other) == old(FindById(other))
    {
      match IndexOf(users, id, UserId)
      case None =>
        r := Err(NotFound(UserEntity));
      case Some(k) =>
        var u := UpdatedUser(users, users[k], dto);
        if u.Err? {
          r := Err(u.error);
          return;
        }
        forall other | true
          ensures Find(users[k := u.value], other, UserId) == if other == id then Some(u.value) else Find(users, other, UserId)
        {
          FindAfterReplace(users, UserId, lastId, k, u.value, other);
        }
        FindAfterReplace(users, UserId, lastId, k, u.value, id);
        UpdateKeepsEmailsUnique(users, k, u.value, dto);
        users := users[k := u.value];
        r := Ok(ToUserDto(u.value));
    }

    /** delete: the user with the id leaves the table; deleting a missing id does nothing. */
    method Delete(id: nat)
      requires Valid()
      modifies this
      ensures Valid() && lastId == old(lastId)
      ensures FindById(id).Err?
      ensures forall other :: other != id ==> FindById(other) == old(FindById(other))
      ensures old(FindById(id)).Err? ==> users == old(users)
      ensures |users| == if old(FindById(id)).Ok? then |old(users)| - 1 else |old(users)|
    {
      match IndexOf(users, id, UserId)
      case None =>
      case Some(k) =>
        forall other | true
          ensures Find(users[..k] + users[k + 1..], other, UserId) == if other == id then None else Find(users, other, UserId)
        {
          FindAfterRemove(users, UserId, lastId, k, other);
        }
        FindAfterRemove(users, UserId, lastId, k, id);
        RemoveKeepsEmailsUnique(users, k);
        users := users[..k] + users[k + 1..];
    }
  }

  /** The update's email check keeps emails unique: a new email is one nobody had. */
  lemma UpdateKeepsEmailsUnique(users: seq<User>, k: nat, updated: User, dto: UserUpdateDto)
    requires UniqueEmails(users) && k < |users|
    requires UpdatedUser(users, users[k], dto) == Ok(updated)
    ensures UniqueEmails(users[k := updated])
  {
    var after := users[k := updated];
    forall i, j | 0 <= i < |after| && 0 <= j < |after| && after[i].email == after[j].email
      ensures i == j
    {
      if updated.email != users[k].email {
        assert !EmailUsed(users, updated.email);
      }
    }
  }

  lemma RemoveKeepsEmailsUnique(users: seq<User>, k: nat)
    requires UniqueEmails(users) && k < |users|
    ensures UniqueEmails(users[..k] + users[k + 1..])
  {
    var rest := users[..k] + users[k + 1..];
    assert forall i :: 0 <= i < |rest| ==> rest[i] == users[Skip(i, k)];
    forall i, j | 0 <= i < |rest| && 0 <= j < |rest| && rest[i].email == rest[j].email
      ensures i == j
    {
      assert Skip(i, k) == Skip(j, k);
    }
  }
}
