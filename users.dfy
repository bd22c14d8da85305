/** A registered user and the values the entity computes or starts with. */
module Users {
  import opened Wrappers
  import opened Time
  import opened Text

  datatype User = User(
    userId: int,
    username: string,
    email: string,
    passwordHash: string,
    firstName: Option<string>,
    lastName: Option<string>,
    isActive: bool,
    createdAt: DateTime,
    updatedAt: DateTime)

  /**
   * A new entity before any property is assigned: active, with empty
   * username, email and password hash and no names. Its two timestamps are
   * two separate clock readings.
   */
  function NewUser(createdAt: DateTime, updatedAt: DateTime): (u: User)
    ensures u.isActive
    ensures u.username == "" && u.email == "" && u.passwordHash == ""
    ensures u.firstName.None? && u.lastName.None?
  {
    User(0, "", "", "", None, None, true, createdAt, updatedAt)
  }

  /** True when `s` neither begins nor ends with whitespace. */
  predicate IsTrimmed(s: string) {
    s == [] || (!IsWhiteSpace(s[0]) && !IsWhiteSpace(s[|s| - 1]))
  }

  /**
   * First name, one blank, last name, trimmed; a missing name interpolates
   * as the empty string.
   */
  function FullName(u: User): (r: string)
    ensures IsTrimmed(r)
    ensures u.firstName.None? && u.lastName.None? ==> r == ""
    ensures |r| <= |u.firstName.GetOr("")| + 1 + |u.lastName.GetOr("")|
  {
    Trim(u.firstName.GetOr("") + " " + u.lastName.GetOr(""))
  }

  /** With only a first name, and no whitespace around it, the full name is that name alone. */
  lemma FullNameFirstOnly(u: User)
    requires u.firstName.Some? && IsTrimmed(u.firstName.value) && u.lastName.None?
    ensures FullName(u) == u.firstName.value
  {
    assert u.firstName.value + " " + "" == u.firstName.value + " ";
    TrimTrailingSpace(u.firstName.value);
  }

  /** With only a last name, and no whitespace around it, the full name is that name alone. */
  lemma FullNameLastOnly(u: User)
    requires u.lastName.Some? && IsTrimmed(u.lastName.value) && u.firstName.None?
    ensures FullName(u) == u.lastName.value
  {
    assert "" + " " + u.lastName.value == " " + u.lastName.value;
    TrimLeadingSpace(u.lastName.value);
  }

  /** Two non-empty names without surrounding whitespace are joined by exactly one blank. */
  lemma FullNameBoth(u: User)
    requires u.firstName.Some? && u.firstName.value != [] && IsTrimmed(u.firstName.value)
    requires u.lastName.Some? && u.lastName.value != [] && IsTrimmed(u.lastName.value)
    ensures FullName(u) == u.firstName.value + " " + u.lastName.value
  {
    var s := u.firstName.value + " " + u.lastName.value;
    assert s[0] == u.firstName.value[0];
    assert s[|s| - 1] == u.lastName.value[|u.lastName.value| - 1];
    TrimOfTrimmed(s);
  }
}
