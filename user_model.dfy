/** The User document as the services read and write it. The password fields and the creation
    date may be null (the services test or set them to null); the other fields are plain strings.
    The role is one of "ROLE_USER" and "ROLE_ADMIN" wherever a service checks it. */
module UserModel {
  import opened Common

  datatype User = User(
    id: string,
    firstName: string,
    lastName: string,
    email: string,
    password: Option<string>,
    rawPassword: Option<string>,
    role: string,
    bio: string,
    profilePicture: string,
    enabled: bool,
    createdAt: Option<int>)

  /** The two roles a role update accepts. */
  predicate IsKnownRole(role: string) {
    role == "ROLE_USER" || role == "ROLE_ADMIN"
  }

  /** The display name the services build from a user record. */
  function FullName(u: User): (name: string)
    ensures |name| == |u.firstName| + 1 + |u.lastName|
    ensures name[..|u.firstName|] == u.firstName && name[|u.firstName|] == ' '
    ensures name[|u.firstName| + 1..] == u.lastName
  {
    u.firstName + " " + u.lastName
  }

  /** A user with both password fields set to null, as getUserById and searchUsers hand out. */
  function WithoutPasswords(u: User): (r: User)
    ensures r.password.None? && r.rawPassword.None?
    ensures r == u.(password := None, rawPassword := None)
  {
    u.(password := None, rawPassword := None)
  }
}
