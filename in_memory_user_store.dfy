/**
 * The legacy in-memory user store: a primary map from id to user, a secondary map from email to
 * user, and an id counter. It does not check that emails are unique; the user service does.
 */
module InMemoryUserStore {
  import opened Common
  import opened Model
  import opened HashMaps

  class InMemoryUserRepository {
    var idCounter: nat
    var usersByIds: map<nat, User>
    var usersByEmails: map<string, User>

    /** Ids are keys and come from the counter; every email entry names a stored user under that email. */
    ghost predicate Valid()
      reads this
    {
      && (forall id :: id in usersByIds ==> usersByIds[id].id == id && 0 < id <= idCounter)
      && (forall e :: e in usersByEmails ==>
            && usersByEmails[e].email == e
            && usersByEmails[e].id in usersByIds
            && usersByIds[usersByEmails[e].id] == usersByEmails[e])
    }

    /** The email index is complete: every stored user is found by its email. */
    ghost predicate Indexed()
      reads this
    {
      forall id :: id in usersByIds ==>
        usersByIds[id].email in usersByEmails && usersByEmails[usersByIds[id].email] == usersByIds[id]
    }

    constructor ()
      ensures Valid() && Indexed() && idCounter == 0 && usersByIds == map[] && usersByEmails == map[]
    {
      idCounter := 0;
      usersByIds := map[];
      usersByEmails := map[];
    }

    function FindById(id: nat): (r: Option<User>)
      reads this
      ensures r.None? <==> id !in usersByIds
      ensures r.Some? ==> r.value == usersByIds[id]
    {
      if id in usersByIds then Some(usersByIds[id]) else None
    }

    function FindByEmail(email: string): (r: Option<User>)
      reads this
      ensures r.None? <==> email !in usersByEmails
      ensures r.Some? ==> r.value == usersByEmails[email]
    {
      if email in usersByEmails then Some(usersByEmails[email]) else None
    }

    /** findAll: one entry per stored user, exactly the values of the primary map. */
    method FindAll() returns (r: seq<User>)
      ensures |r| == |usersByIds|
      ensures forall u :: u in r <==> u in usersByIds.Values
    {
      var ids;
      ids, r := Values(usersByIds);
    }

    /**
     * save: the user gets the next id and is entered under its id and its email. An email already
     * in the index is rebound to the new user, and its previous holder can no longer be found by it.
     */
    method Save(user: User) returns (r: User)
      requires Valid()
      modifies this
      ensures Valid()
      ensures idCounter == old(idCounter) + 1 && r == user.(id := idCounter) && r.id !in old(usersByIds)
      ensures usersByIds == old(usersByIds)[r.id := r] && usersByEmails == old(usersByEmails)[user.email := r]
      ensures FindById(r.id) == Some(r) && FindByEmail(r.email) == Some(r)
      ensures old(Indexed()) && user.email !in old(usersByEmails) ==> Indexed()
      ensures user.email in old(usersByEmails) ==>
                var holder := old(usersByEmails)[user.email];
                holder.id in usersByIds && FindByEmail(user.email) != Some(holder) && !Indexed()
    {
      idCounter := idCounter + 1;
      r := user.(id := idCounter);
      usersByEmails := usersByEmails[r.email := r];
      usersByIds := usersByIds[r.id := r];
    }

    /**
     * update: the stored user with this id is replaced; a changed email loses its old key. The
     * index stays complete when no other user has the new email.
     */
    method Update(user: User) returns (r: User)
      requires Valid()
      requires user.id in usersByIds
      modifies this
      ensures Valid() && idCounter == old(idCounter) && r == user
      ensures usersByIds == old(usersByIds)[user.id := user]
      ensures var previous := old(usersByIds)[user.id];
        usersByEmails == (if previous.email != user.email then old(usersByEmails) - {previous.email}
                          else old(usersByEmails))[user.email := user]
      ensures FindById(user.id) == Some(user) && FindByEmail(user.email) == Some(user)
      ensures old(usersByIds)[user.id].email != user.email ==> FindByEmail(old(usersByIds)[user.id].email).None?
      ensures forall id :: id in old(usersByIds) && id != user.id ==> FindById(id) == old(FindById(id))
      ensures old(Indexed()) && (forall id :: id in old(usersByIds) && id != user.id ==> old(usersByIds)[id].email != user.email)
              ==> Indexed()
    {
      var previous := usersByIds[user.id];
      if previous.email != user.email {
        usersByEmails := usersByEmails - {previous.email};
      }
      usersByEmails := usersByEmails[user.email := user];
      usersByIds := usersByIds[user.id := user];
      r := user;
    }

    /** delete: the user leaves both maps; the id must be stored. */
    method Delete(id: nat)
      requires Valid()
      requires id in usersByIds
      modifies this
      ensures Valid() && idCounter == old(idCounter)
      ensures usersByIds == old(usersByIds) - {id}
      ensures usersByEmails == old(usersByEmails) - {old(usersByIds)[id].email}
      ensures FindById(id).None? && FindByEmail(old(usersByIds)[id].email).None?
      ensures old(Indexed()) ==> Indexed()
    {
      var user := usersByIds[id];
      usersByIds := usersByIds - {id};
      usersByEmails := usersByEmails - {user.email};
    }
  }

  /** A complete index means no two stored users share an email. */
  lemma IndexedMeansUniqueEmails(store: InMemoryUserRepository, a: nat, b: nat)
    requires store.Indexed()
    requires a in store.usersByIds && b in store.usersByIds && store.Valid()
    requires store.usersByIds[a].email == store.usersByIds[b].email
    ensures a == b
  {
  }
}
