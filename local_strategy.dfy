/** The passport local strategy (src/strategies/local-strategy.js): the
    credential check run at login, and how the session keeps and restores the
    signed-in user. bcrypt's comparison is a parameter. */
module LocalStrategy {
  import opened Types

  const SelectCredentialsSql := "SELECT id, user_name, user_email, user_password FROM users WHERE user_email = ?"
  const SelectSessionUserSql := "SELECT id, user_name, user_email FROM users WHERE user_email = ?"

  /** The first row with the given e-mail, as `rows[0]` of a lookup by e-mail. */
  function FindByEmail(users: seq<UserRow>, email: string): (r: Option<UserRow>)
    ensures r.Some? ==> r.value in users && r.value.userEmail == email
    ensures r.None? <==> forall row :: row in users ==> row.userEmail != email
  {
    if users == [] then None
    else if users[0].userEmail == email then Some(users[0])
    else FindByEmail(users[1..], email)
  }

  /** What the verify callback hands to `done`: a user, a refusal with its
      message (`done(null, false, { message })`), or an error
      (`done(e, false, e)`). */
  datatype Verdict = Authenticated(user: Principal) | Rejected(message: string) | Errored(error: Error)

  /** The verify callback. `matches(password, hash)` is `bcrypt.compare`; a
      failed lookup is `storeError`. */
  function Verify(users: seq<UserRow>, email: string, password: string,
                  matches: (string, string) -> bool, storeError: Option<string>): (r: Verdict)
    ensures storeError.Some? ==> r == Errored(StoreError(storeError.value))
    ensures storeError.None? && FindByEmail(users, email).None? ==> r == Rejected("User not found.")
    ensures storeError.None? && FindByEmail(users, email).Some? ==>
      (!matches(password, FindByEmail(users, email).value.userPassword) ==> r == Rejected("Wrong password"))
    ensures r.Authenticated? <==>
      storeError.None? && FindByEmail(users, email).Some? &&
      matches(password, FindByEmail(users, email).value.userPassword)
    ensures r.Authenticated? ==> r.user.email == email && exists row :: row in users && PrincipalOf(row) == r.user
  {
    if storeError.Some? then Errored(StoreError(storeError.value))
    else match FindByEmail(users, email)
      case None => Rejected("User not found.")
      case Some(row) =>
        if !matches(password, row.userPassword) then Rejected("Wrong password")
        else Authenticated(PrincipalOf(row))
  }

  /** An unknown e-mail is refused before any comparison: neither the
      password nor the comparison changes the verdict. */
  lemma UnknownEmailComparesNothing(users: seq<UserRow>, email: string, p1: string, p2: string,
                                    m1: (string, string) -> bool, m2: (string, string) -> bool)
    requires FindByEmail(users, email).None?
    ensures Verify(users, email, p1, m1, None) == Verify(users, email, p2, m2, None) == Rejected("User not found.")
  {
  }

  /** The principal a row yields never depends on the stored hash. */
  lemma PrincipalOmitsHash(row: UserRow, otherHash: string)
    ensures PrincipalOf(row.(userPassword := otherHash)) == PrincipalOf(row)
    ensures PrincipalOf(row) == Principal(row.userName, row.userEmail, row.id)
  {
  }

  /** `serializeUser`: the session keeps the principal as it is. */
  function Serialize(p: Principal): Principal
  {
    p
  }

  /** What `deserializeUser` hands to `done`. */
  datatype Restored = Restored(user: Principal) | NotRestored(error: Error)

  /** `deserializeUser`: read the row again by the stored e-mail and rebuild
      the principal from it; with no row, reading its fields throws. */
  function Deserialize(users: seq<UserRow>, stored: Principal, storeError: Option<string>): (r: Restored)
    ensures storeError.Some? ==> r == NotRestored(StoreError(storeError.value))
    ensures storeError.None? && FindByEmail(users, stored.email).None? ==> r == NotRestored(TypeError)
    ensures r.Restored? <==> storeError.None? && FindByEmail(users, stored.email).Some?
    ensures r.Restored? ==> r.user.email == stored.email && exists row :: row in users && PrincipalOf(row) == r.user
  {
    if storeError.Some? then NotRestored(StoreError(storeError.value))
    else match FindByEmail(users, stored.email)
      case None => NotRestored(TypeError)
      case Some(row) => Restored(PrincipalOf(row))
  }

  /** What the session restores is the principal the login produced, as long
      as the table has not changed in between. */
  lemma SessionRoundTrip(users: seq<UserRow>, email: string, password: string,
                         matches: (string, string) -> bool, p: Principal)
    requires Verify(users, email, password, matches, None) == Authenticated(p)
    ensures Deserialize(users, Serialize(p), None) == Restored(p)
  {
    assert p.email == email;
  }
}
