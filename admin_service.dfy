/** The administrator's user management: create with a unique email, field-merging update with
    role validation, delete, the enabled toggle, and the password-free copies every answer
    carries. */
module Admin {
  import opened Common
  import opened UserModel

  /** existsByEmail. */
  predicate EmailTaken(users: map<string, User>, email: string): (taken: bool)
    ensures users == map[] ==> !taken
    ensures !taken ==> forall id :: id in users ==> users[id].email != email
  {
    exists id :: id in users && users[id].email == email
  }

  /** The store invariant createUser and updateUser keep: no two users share an email. */
  predicate EmailsUnique(users: map<string, User>) {
    forall a, b :: a in users && b in users && a != b ==> users[a].email != users[b].email
  }

  /** Saving a user under a new id keeps emails unique exactly when the email is not taken. */
  lemma SaveKeepsEmailsUnique(users: map<string, User>, id: string, u: User)
    requires EmailsUnique(users) && id !in users
    ensures EmailsUnique(users[id := u]) <==> !EmailTaken(users, u.email)
  {
    if EmailTaken(users, u.email) {
      var other :| other in users && users[other].email == u.email;
      assert other != id && users[id := u][other].email == users[id := u][id].email;
    }
  }

  /** Saving a user with an unused email under any id, new or stored, keeps emails unique. */
  lemma SaveKeepsUnique(users: map<string, User>, id: string, u: User)
    requires EmailsUnique(users) && !EmailTaken(users, u.email)
    ensures EmailsUnique(users[id := u])
  {
  }

  /** sanitizeUserForResponse: a copy of every field except the two password fields. */
  function Sanitize(u: User): (s: User)
    ensures s.password.None? && s.rawPassword.None?
    ensures s.id == u.id && s.firstName == u.firstName && s.lastName == u.lastName && s.email == u.email
    ensures s.role == u.role && s.bio == u.bio && s.profilePicture == u.profilePicture
    ensures s.enabled == u.enabled && s.createdAt == u.createdAt
  {
    User(u.id, u.firstName, u.lastName, u.email, None, None, u.role, u.bio, u.profilePicture, u.enabled, u.createdAt)
  }

  /** A sanitized copy is already sanitized, and two users that differ only in their
      passwords are sanitized alike. */
  lemma SanitizeForgetsPasswords(u: User, p: Option<string>, q: Option<string>)
    ensures Sanitize(Sanitize(u)) == Sanitize(u)
    ensures Sanitize(u.(password := p, rawPassword := q)) == Sanitize(u)
  {
  }

  /** The update object: names, email and role may be null; enabled is a plain boolean. */
  datatype UserUpdate = UserUpdate(firstName: Option<string>, lastName: Option<string>, email: Option<string>,
                                   role: Option<string>, enabled: bool)

  /** A field of the update is applied only when it is non-null and non-empty. */
  predicate Given(s: Option<string>) {
    s.Some? && s.value != []
  }

  /** What updateUser rejects, given the stored user: a changed email already in use, or a role
      outside the two known ones. */
  function UpdateError(users: map<string, User>, u: User, updates: UserUpdate): (e: Option<Error>)
    ensures e.None? <==> (Given(updates.email) && updates.email.value != u.email ==> !EmailTaken(users, updates.email.value))
                         && (Given(updates.role) ==> IsKnownRole(updates.role.value))
  {
    if Given(updates.email) && updates.email.value != u.email && EmailTaken(users, updates.email.value) then
      Some(IllegalArgument("Email already exists"))
    else if Given(updates.role) && !IsKnownRole(updates.role.value) then
      Some(IllegalArgument("Invalid role: " + updates.role.value))
    else None
  }

  /** The stored user after an accepted update. */
  function Merged(u: User, updates: UserUpdate): (r: User)
    ensures r.id == u.id && r.password == u.password && r.rawPassword == u.rawPassword
    ensures r.bio == u.bio && r.profilePicture == u.profilePicture && r.createdAt == u.createdAt
    ensures r.firstName == if Given(updates.firstName) then updates.firstName.value else u.firstName
    ensures r.lastName == if Given(updates.lastName) then updates.lastName.value else u.lastName
    ensures r.email == if Given(updates.email) then updates.email.value else u.email
    ensures r.role == if Given(updates.role) then updates.role.value else u.role
    ensures r.enabled == updates.enabled
  {
    u.(firstName := if Given(updates.firstName) then updates.firstName.value else u.firstName,
       lastName := if Given(updates.lastName) then updates.lastName.value else u.lastName,
       email := if Given(updates.email) then updates.email.value else u.email,
       role := if Given(updates.role) then updates.role.value else u.role,
       enabled := updates.enabled)
  }

  /** An accepted update keeps emails unique. */
  lemma MergedKeepsEmailsUnique(users: map<string, User>, id: string, updates: UserUpdate)
    requires EmailsUnique(users) && id in users
    requires UpdateError(users, users[id], updates).None?
    ensures EmailsUnique(users[id := Merged(users[id], updates)])
  {
    var m := users[id := Merged(users[id], updates)];
    forall a, b | a in m && b in m && a != b ensures m[a].email != m[b].email {
      if a == id && Given(updates.email) && updates.email.value != users[id].email {
        assert users[b].email != updates.email.value;
      } else if b == id && Given(updates.email) && updates.email.value != users[id].email {
        assert users[a].email != updates.email.value;
      }
    }
  }

  /** The sanitized copies of the users the predicate selects. */
  function SanitizedWhere(users: map<string, User>, blockedOnly: bool): (r: map<string, User>)
    ensures forall id :: id in r <==> id in users && (blockedOnly ==> !users[id].enabled)
    ensures forall id :: id in r ==> r[id] == Sanitize(users[id])
  {
    map id | id in users && (blockedOnly ==> !users[id].enabled) :: Sanitize(users[id])
  }

  /** The admin service over the user repository; the password encoder's answer is a parameter. */
  class AdminService {
    var users: map<string, User>

    ghost predicate Valid()
      reads this
    {
      EmailsUnique(users)
    }

    constructor (users: map<string, User>)
      requires EmailsUnique(users)
      ensures Valid() && this.users == users
    {
      this.users := users;
    }

    /** getAllUsers: every user, sanitized (keyed by id; the list order is not modelled). */
    method GetAllUsers() returns (r: map<string, User>)
      ensures r.Keys == users.Keys
      ensures forall id :: id in r ==> r[id] == Sanitize(users[id]) && r[id].password.None?
    {
      r := SanitizedWhere(users, false);
    }

    /** getBlockedUsers: exactly the disabled users, sanitized. */
    method GetBlockedUsers() returns (r: map<string, User>)
      ensures forall id :: id in r <==> id in users && !users[id].enabled
      ensures forall id :: id in r ==> r[id] == Sanitize(users[id]) && r[id].password.None?
    {
      r := SanitizedWhere(users, true);
    }

    /** createUser: a taken email is refused and nothing is saved; otherwise the raw password is
        kept, the encoder's output becomes the password, and createdAt is set when missing. A
        null password makes the encoder throw before the save. The request body is saved as it
        came: givenId is the id it carries (None when null), and save() stores the user under that
        id, replacing any user already stored there; a body without an id gets the generated
        newId. */
    method CreateUser(user: User, givenId: Option<string>, newId: string, encoded: string, now: int)
      returns (r: Result<User>)
      requires Valid()
      requires givenId.None? ==> newId !in users
      modifies this
      ensures Valid()
      ensures EmailTaken(old(users), user.email) ==>
                r == Err(IllegalArgument("Email already exists")) && users == old(users)
      ensures !EmailTaken(old(users), user.email) && user.password.None? ==>
                r == Err(IllegalArgument("rawPassword cannot be null")) && users == old(users)
      ensures !EmailTaken(old(users), user.email) && user.password.Some? ==>
                var key := if givenId.Some? then givenId.value else newId;
                var saved := user.(id := key, rawPassword := user.password, password := Some(encoded),
                                   createdAt := if user.createdAt.None? then Some(now) else user.createdAt);
                users == old(users)[key := saved] && r == Ok(Sanitize(saved))
    {
      if exists id :: id in users && users[id].email == user.email {
        return Err(IllegalArgument("Email already exists"));
      }
      var u := user.(rawPassword := user.password);
      if user.password.None? {
        return Err(IllegalArgument("rawPassword cannot be null"));
      }
      u := u.(password := Some(encoded));
      if u.createdAt.None? {
        u := u.(createdAt := Some(now));
      }
      var key := if givenId.Some? then givenId.value else newId;
      u := u.(id := key);
      SaveKeepsUnique(users, key, u);
      users := users[key := u];
      return Ok(Sanitize(u));
    }

    /** updateUser. Every check happens before the save, so a refused update changes nothing. */
    method UpdateUser(userId: string, updates: UserUpdate) returns (r: Result<User>)
      requires Valid()
      modifies this
      ensures Valid()
      ensures userId !in old(users) ==>
                r == Err(IllegalArgument("User not found with ID: " + userId)) && users == old(users)
      ensures userId in old(users) && UpdateError(old(users), old(users)[userId], updates).Some? ==>
                r == Err(UpdateError(old(users), old(users)[userId], updates).value) && users == old(users)
      ensures userId in old(users) && UpdateError(old(users), old(users)[userId], updates).None? ==>
                users == old(users)[userId := Merged(old(users)[userId], updates)]
                && r == Ok(Sanitize(users[userId]))
                && r.value.enabled == updates.enabled
    {
      if userId !in users {
        return Err(IllegalArgument("User not found with ID: " + userId));
      }
      var u := users[userId];
      if Given(updates.firstName) {
        u := u.(firstName := updates.firstName.value);
      }
      if Given(updates.lastName) {
        u := u.(lastName := updates.lastName.value);
      }
      if Given(updates.email) {
        if u.email != updates.email.value {
          if exists id :: id in users && users[id].email == updates.email.value {
            return Err(IllegalArgument("Email already exists"));
          }
          u := u.(email := updates.email.value);
        }
      }
      if Given(updates.role) {
        if updates.role.value == "ROLE_USER" || updates.role.value == "ROLE_ADMIN" {
          u := u.(role := updates.role.value);
        } else {
          return Err(IllegalArgument("Invalid role: " + updates.role.value));
        }
      }
      if updates.enabled != u.enabled {
        u := u.(enabled := updates.enabled);
      }
      assert u == Merged(users[userId], updates);
      MergedKeepsEmailsUnique(users, userId, updates);
      users := users[userId := u];
      return Ok(Sanitize(u));
    }

    /** deleteUser. */
    method DeleteUser(userId: string) returns (e: Option<Error>)
      requires Valid()
      modifies this
      ensures Valid()
      ensures userId !in old(users) ==> e == Some(IllegalArgument("User not found with ID: " + userId)) && users == old(users)
      ensures userId in old(users) ==> e.None? && users == old(users) - {userId}
    {
      if userId !in users {
        return Some(IllegalArgument("User not found with ID: " + userId));
      }
      users := users - {userId};
      return None;
    }

    /** toggleUserStatus: enabled is negated; nothing else changes. */
    method ToggleUserStatus(userId: string) returns (r: Result<User>)
      requires Valid()
      modifies this
      ensures Valid()
      ensures userId !in old(users) ==>
                r == Err(IllegalArgument("User not found with ID: " + userId)) && users == old(users)
      ensures userId in old(users) ==>
                users == old(users)[userId := old(users)[userId].(enabled := !old(users)[userId].enabled)]
                && r == Ok(Sanitize(users[userId]))
    {
      if userId !in users {
        return Err(IllegalArgument("User not found with ID: " + userId));
      }
      var u := users[userId];
      u := u.(enabled := !u.enabled);
      users := users[userId := u];
      return Ok(Sanitize(u));
    }
  }

  /** Two toggles restore the store. */
  lemma ToggleTwiceRestores(users: map<string, User>, userId: string)
    requires userId in users
    ensures var once := users[userId := users[userId].(enabled := !users[userId].enabled)];
            once[userId := once[userId].(enabled := !once[userId].enabled)] == users
  {
    var once := users[userId := users[userId].(enabled := !users[userId].enabled)];
    assert once[userId := once[userId].(enabled := !once[userId].enabled)][userId] == users[userId];
  }
}
