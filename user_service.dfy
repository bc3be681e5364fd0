/** The user's own profile service: lookup without passwords, the profile update with its
    picture check, the role update, and the case-insensitive search. */
module Users {
  import opened Common
  import opened UserModel
  import Posts

  /** The stored user after a role update, as the service is evidently meant to leave it: only
      the role changes. */
  function RoleUpdated(u: User, newRole: string): (r: User)
    ensures r.role == newRole
    ensures r.password == u.password && r.rawPassword == u.rawPassword
    ensures r.(role := u.role) == u
  {
    u.(role := newRole)
  }

  /** updateUserRole as written: the object it saves is the one getUserById handed out, whose
      password fields were set to null; the store after the call is returned with the answer. */
  function UpdateUserRoleAsWritten(users: map<string, User>, userId: string, newRole: string)
    : (r: (Result<User>, map<string, User>))
    ensures userId !in users ==> r == (Err(Runtime("User not found with id: " + userId)), users)
    ensures userId in users && !IsKnownRole(newRole) ==> r == (Err(IllegalArgument("Invalid role: " + newRole)), users)
    ensures userId in users && IsKnownRole(newRole) ==>
              r.0.Ok? && r.1.Keys == users.Keys && r.1[userId].role == newRole
              && r.1[userId].password.None? && r.1[userId].rawPassword.None?
  {
    if userId !in users then (Err(Runtime("User not found with id: " + userId)), users)
    else
      var handedOut := WithoutPasswords(users[userId]);
      if !IsKnownRole(newRole) then (Err(IllegalArgument("Invalid role: " + newRole)), users)
      else
        var saved := handedOut.(role := newRole);
        (Ok(saved), users[userId := saved])
  }

  /** The discrepancy: a user who could log in with a password has no stored password after
      an accepted role change. */
  lemma RoleUpdateAsWrittenLosesPassword(users: map<string, User>, userId: string, newRole: string)
    requires userId in users && users[userId].password.Some?
    requires IsKnownRole(newRole)
    ensures UpdateUserRoleAsWritten(users, userId, newRole).1[userId].password.None?
    ensures UpdateUserRoleAsWritten(users, userId, newRole).1[userId].password != users[userId].password
  {
  }

  /** A concrete instance: an administrator promotes user "u1", whose password was "secret". */
  lemma RoleUpdateAsWrittenExample()
    ensures var u := User("u1", "Ann", "Lee", "ann@example.com", Some("secret"), Some("secret"),
                          "ROLE_USER", "", "", true, None);
            var after := UpdateUserRoleAsWritten(map["u1" := u], "u1", "ROLE_ADMIN").1;
            after["u1"].password == None && after["u1"].rawPassword == None
  {
  }

  /** searchUsers' finder: the query occurs in the first name, the last name or the email,
      ignoring ASCII letter case. */
  predicate MatchesQuery(u: User, query: string): (found: bool)
    ensures query == [] ==> found
    ensures Contains(u.firstName, query) || Contains(u.lastName, query) || Contains(u.email, query) ==> found
  {
    ContainsLowered(u.firstName, query);
    ContainsLowered(u.lastName, query);
    ContainsLowered(u.email, query);
    Contains(ToLower(u.firstName), ToLower(query)) ||
    Contains(ToLower(u.lastName), ToLower(query)) ||
    Contains(ToLower(u.email), ToLower(query))
  }

  /** Two queries that differ only in letter case find the same users. */
  lemma MatchesQueryIgnoresCase(u: User, q: string, r: string)
    requires SameIgnoringCase(q, r)
    ensures MatchesQuery(u, q) <==> MatchesQuery(u, r)
  {
  }

  /** The user after an accepted profile update: each of the three text fields is replaced when
      given (an empty string replaces too), and the picture URL when a new picture was stored. */
  function ProfileUpdated(u: User, firstName: Option<string>, lastName: Option<string>, bio: Option<string>,
                          pictureId: Option<string>): (r: User)
    ensures r.id == u.id && r.email == u.email && r.role == u.role && r.enabled == u.enabled
    ensures r.password == u.password && r.rawPassword == u.rawPassword && r.createdAt == u.createdAt
    ensures r.firstName == (if firstName.Some? then firstName.value else u.firstName)
    ensures r.lastName == (if lastName.Some? then lastName.value else u.lastName)
    ensures r.bio == (if bio.Some? then bio.value else u.bio)
    ensures pictureId.Some? ==> r.profilePicture == MediaUrl(pictureId.value)
    ensures pictureId.None? ==> r.profilePicture == u.profilePicture
  {
    u.(firstName := if firstName.Some? then firstName.value else u.firstName,
       lastName := if lastName.Some? then lastName.value else u.lastName,
       bio := if bio.Some? then bio.value else u.bio,
       profilePicture := if pictureId.Some? then MediaUrl(pictureId.value) else u.profilePicture)
  }

  /** What a profile picture upload throws, if anything: a null content type fails on
      startsWith, and a type not starting with "image/" is refused. */
  function PictureError(picture: Posts.Upload): (e: Option<Error>)
    ensures e.None? <==> Posts.ImageAccepted(picture)
  {
    if picture.contentType.None? then Some(Runtime("NullPointerException"))
    else if !StartsWith(picture.contentType.value, "image/") then
      Some(IllegalArgument("Only image files are allowed for profile picture"))
    else None
  }

  class UserService {
    var users: map<string, User>
    var media: set<string>

    constructor (users: map<string, User>, media: set<string>)
      ensures this.users == users && this.media == media
    {
      this.users := users;
      this.media := media;
    }

    /** getUserById: the stored user with both password fields set to null on the copy handed
        out; the store keeps them. */
    method GetUserById(userId: string) returns (r: Result<User>)
      ensures userId !in users ==> r == Err(Runtime("User not found with id: " + userId))
      ensures userId in users ==> r == Ok(WithoutPasswords(users[userId]))
      ensures r.Ok? ==> r.value.password.None? && r.value.rawPassword.None? && r.value.id == users[userId].id
    {
      if userId !in users {
        return Err(Runtime("User not found with id: " + userId));
      }
      var u := users[userId];
      u := u.(password := None, rawPassword := None);
      return Ok(u);
    }

    /** updateUserProfile. The picture check happens before the save, so a refused picture
        changes nothing; an accepted one is stored under the fresh media id. The saved user is
        returned as stored, passwords included. */
    method UpdateUserProfile(userId: string, firstName: Option<string>, lastName: Option<string>, bio: Option<string>,
                             picture: Option<Posts.Upload>, mediaId: string) returns (r: Result<User>)
      modifies this
      ensures userId !in old(users) ==> r == Err(Checked("User not found")) && users == old(users) && media == old(media)
      ensures userId in old(users) && picture.Some? && picture.value.size > 0 && PictureError(picture.value).Some? ==>
                r == Err(PictureError(picture.value).value) && users == old(users) && media == old(media)
      ensures userId in old(users) && (picture.Some? && picture.value.size > 0 ==> PictureError(picture.value).None?) ==>
                var stored := picture.Some? && picture.value.size > 0;
                && users == old(users)[userId := ProfileUpdated(old(users)[userId], firstName, lastName, bio,
                                                                if stored then Some(mediaId) else None)]
                && r == Ok(users[userId])
                && media == (if stored then old(media) + {mediaId} else old(media))
    {
      if userId !in users {
        return Err(Checked("User not found"));
      }
      var u := users[userId];
      if firstName.Some? {
        u := u.(firstName := firstName.value);
      }
      if lastName.Some? {
        u := u.(lastName := lastName.value);
      }
      if bio.Some? {
        u := u.(bio := bio.value);
      }
      if picture.Some? && picture.value.size > 0 {
        var refused := PictureError(picture.value);
        if refused.Some? {
          return Err(refused.value);
        }
        media := media + {mediaId};
        u := u.(profilePicture := MediaUrl(mediaId));
      }
      users := users[userId := u];
      return Ok(u);
    }

    /** updateUserRole, corrected: only the role of the stored user changes, and the answer is
        handed out without passwords. */
    method UpdateUserRole(userId: string, newRole: string) returns (r: Result<User>)
      modifies this
      ensures media == old(media)
      ensures userId !in old(users) ==> r == Err(Runtime("User not found with id: " + userId)) && users == old(users)
      ensures userId in old(users) && !IsKnownRole(newRole) ==>
                r == Err(IllegalArgument("Invalid role: " + newRole)) && users == old(users)
      ensures userId in old(users) && IsKnownRole(newRole) ==>
                users == old(users)[userId := RoleUpdated(old(users)[userId], newRole)]
                && r == Ok(WithoutPasswords(users[userId]))
    {
      var found := GetUserById(userId);
      if found.Err? {
        return found;
      }
      if newRole != "ROLE_USER" && newRole != "ROLE_ADMIN" {
        return Err(IllegalArgument("Invalid role: " + newRole));
      }
      var stored := RoleUpdated(users[userId], newRole);
      users := users[userId := stored];
      return Ok(WithoutPasswords(stored));
    }

    /** searchUsers: the matching users, each with both password fields cleared (keyed by id;
        the list order is not modelled). */
    method SearchUsers(query: string) returns (r: map<string, User>)
      ensures forall id :: id in r <==> id in users && MatchesQuery(users[id], query)
      ensures forall id :: id in r ==> r[id] == WithoutPasswords(users[id])
    {
      r := map id | id in users && MatchesQuery(users[id], query) :: WithoutPasswords(users[id]);
    }
  }

  /** The corrected role update keeps the credentials and every other field. */
  lemma RoleUpdateKeepsCredentials(users: map<string, User>, userId: string, newRole: string)
    requires userId in users
    ensures var after := users[userId := RoleUpdated(users[userId], newRole)];
            after[userId].password == users[userId].password
            && after[userId].rawPassword == users[userId].rawPassword
            && after[userId].(role := users[userId].role) == users[userId]
            && forall v :: v in users && v != userId ==> after[v] == users[v]
  {
  }
}
