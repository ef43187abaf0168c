/** The user controller (src/controllers/userController.ts): sign-up, profile
    update and account deletion. The `users` table is a sequence of rows, so
    `rows[0]` of a lookup is the first row that matches. */
module UserController {
  import opened Types
  import opened Sql
  import opened Schema

  // ---------------------------------------------------------------------------
  // The users table and the writes the controller sends to it

  const SelectUserByIdSql := "SELECT user_name, user_email, id FROM users WHERE id = ?"
  const UpdateImageSql := "UPDATE users SET user_image = ? WHERE id = ?"
  const UpdateNameEmailSql := "UPDATE users SET user_name = ?, user_email = ? WHERE id = ?"
  const DeleteUserSql := "DELETE FROM users WHERE id = ?"

  /** The first row with the given id, as `rows[0]` of `SELECT … WHERE id = ?`. */
  function FindById(users: seq<UserRow>, id: int): (r: Option<UserRow>)
    ensures r.Some? ==> r.value in users && r.value.id == id
    ensures r.None? <==> forall row :: row in users ==> row.id != id
  {
    if users == [] then None
    else if users[0].id == id then Some(users[0])
    else FindById(users[1..], id)
  }

  /** The statements that change a users row. */
  datatype UserWrite =
    | SetImage(image: string, id: int)
    | SetNameEmail(name: string, email: string, id: int)
    | DeleteById(id: int)

  function WriteStatement(w: UserWrite): Statement
  {
    match w
    case SetImage(image, id) => Statement(UpdateImageSql, [Text(image), Int(id)])
    case SetNameEmail(name, email, id) => Statement(UpdateNameEmailSql, [Text(name), Text(email), Int(id)])
    case DeleteById(id) => Statement(DeleteUserSql, [Int(id)])
  }

  /** The rows whose id differs from `id`, in order. */
  function Without(users: seq<UserRow>, id: int): (r: seq<UserRow>)
    ensures forall row :: row in r <==> row in users && row.id != id
  {
    if users == [] then []
    else (if users[0].id == id then [] else [users[0]]) + Without(users[1..], id)
  }

  /** One row after an UPDATE; rows with another id are untouched. */
  function Touch(row: UserRow, w: UserWrite): UserRow
  {
    if row.id != w.id then row
    else match w
      case SetImage(image, _) => row.(userImage := Some(image))
      case SetNameEmail(name, email, _) => row.(userName := name, userEmail := email)
      case DeleteById(_) => row
  }

  /** The table after the store runs a write. */
  function Apply(users: seq<UserRow>, w: UserWrite): seq<UserRow>
  {
    match w
    case DeleteById(id) => Without(users, id)
    case _ => seq(|users|, k requires 0 <= k < |users| => Touch(users[k], w))
  }

  // ---------------------------------------------------------------------------
  // createUser

  /** The JSON body of a sign-up: each key absent or a string. */
  datatype RawNewUser = RawNewUser(name: Option<string>, email: Option<string>,
                                   image: Option<string>, password: Option<string>)

  datatype NewUser = NewUser(name: string, email: string, image: Option<string>, password: string)

  const NewNameChecks: seq<Check> := [MaxLength(100), NonEmpty, Trim]
  const NewEmailChecks: seq<Check> := [Email, NonEmpty, Trim]
  const NewImageChecks: seq<Check> := [Url]
  const PasswordChecks: seq<Check> := [MinLength(8), MaxLength(50)]

  function ParseNewUser(raw: RawNewUser, f: Formats): Parsed<NewUser>
  {
    var name := Required(NewNameChecks, raw.name, f);
    var email := Required(NewEmailChecks, raw.email, f);
    var image := Optional(NewImageChecks, raw.image, f);
    var password := Required(PasswordChecks, raw.password, f);
    if name.Valid? && email.Valid? && image.Valid? && password.Valid?
    then Valid(NewUser(name.value, email.value, image.value, password.value))
    else Invalid
  }

  /** The sign-up schema: bounds on the name and the e-mail apply to the text
      as sent, both are stored trimmed, and the password must be 8 to 50
      UTF-16 units long and is kept as sent. */
  lemma NewUserSchema(raw: RawNewUser, f: Formats)
    ensures ParseNewUser(raw, f).Valid? <==>
      && raw.name.Some? && 1 <= JsLength(raw.name.value) <= 100
      && raw.email.Some? && 1 <= JsLength(raw.email.value) && f.isEmail(raw.email.value)
      && (raw.image.None? || f.isUrl(raw.image.value))
      && raw.password.Some? && 8 <= JsLength(raw.password.value) <= 50
    ensures ParseNewUser(raw, f).Valid? ==>
      ParseNewUser(raw, f).value ==
        NewUser(TrimText(raw.name.value), TrimText(raw.email.value), raw.image, raw.password.value)
  {
    NewNameField(raw.name, f);
    NewEmailField(raw.email, f);
    NewImageField(raw.image, f);
    PasswordField(raw.password, f);
  }

  lemma NewNameField(v: Option<string>, f: Formats)
    ensures Required(NewNameChecks, v, f) ==
      if v.Some? && 1 <= JsLength(v.value) <= 100 then Valid(TrimText(v.value)) else Invalid
  {
    if v.Some? {
      var before := [MaxLength(100), NonEmpty];
      assert NewNameChecks == before + [Trim] + [];
      RunChecksTrimmed(before, [], v.value, f);
      assert AllAccept(before, v.value, f) <==> Accepts(before[0], v.value, f) && Accepts(before[1], v.value, f);
    }
  }

  lemma NewEmailField(v: Option<string>, f: Formats)
    ensures Required(NewEmailChecks, v, f) ==
      if v.Some? && 1 <= |v.value| && f.isEmail(v.value) then Valid(TrimText(v.value)) else Invalid
  {
    if v.Some? {
      var before := [Email, NonEmpty];
      assert NewEmailChecks == before + [Trim] + [];
      RunChecksTrimmed(before, [], v.value, f);
      assert AllAccept(before, v.value, f) <==> Accepts(before[0], v.value, f) && Accepts(before[1], v.value, f);
    }
  }

  lemma NewImageField(v: Option<string>, f: Formats)
    ensures Optional(NewImageChecks, v, f) ==
      if v.None? then Valid(None) else if f.isUrl(v.value) then Valid(v) else Invalid
  {
    if v.Some? {
      RunChecksPlain(NewImageChecks, v.value, f);
      assert AllAccept(NewImageChecks, v.value, f) <==> Accepts(NewImageChecks[0], v.value, f);
    }
  }

  lemma PasswordField(v: Option<string>, f: Formats)
    ensures Required(PasswordChecks, v, f) == if v.Some? && 8 <= JsLength(v.value) <= 50 then Valid(v.value) else Invalid
  {
    if v.Some? {
      RunChecksPlain(PasswordChecks, v.value, f);
      assert AllAccept(PasswordChecks, v.value, f) <==>
        Accepts(PasswordChecks[0], v.value, f) && Accepts(PasswordChecks[1], v.value, f);
    }
  }

  /** 26 emoji are 52 UTF-16 units: too long a password, though 26 characters. */
  lemma AstralPasswordRejected(f: Formats)
    ensures Required(PasswordChecks, Some(seq(26, _ => '\U{1F600}')), f) == Invalid
  {
    var s: string := seq(26, _ => '\U{1F600}');
    JsLengthAstral(s);
    PasswordField(Some(s), f);
  }

  const UserInsertColumns: seq<string> := ["user_name", "user_email", "user_image", "user_password"]
  const InsertUserSql: string := InsertText("users", UserInsertColumns, |UserInsertColumns|)

  /** The parameters of the sign-up INSERT, in column order; `hash` is the
      salted bcrypt hash of this call. */
  function NewUserParams(u: NewUser, hash: string -> string): seq<SqlValue>
  {
    [Text(u.name), Text(u.email), Nullable(u.image), Text(hash(u.password))]
  }

  /** One parameter per column and per placeholder, and the password column
      receives the hash, never the password as sent. */
  lemma NewUserParamsAlign(u: NewUser, hash: string -> string)
    ensures |NewUserParams(u, hash)| == |UserInsertColumns| == Placeholders(InsertUserSql)
    ensures forall k :: 0 <= k < |UserInsertColumns| && UserInsertColumns[k] == "user_password" ==>
      NewUserParams(u, hash)[k] == Text(hash(u.password))
    ensures forall k :: 0 <= k < |UserInsertColumns| && UserInsertColumns[k] == "user_image" ==>
      (NewUserParams(u, hash)[k] == Null <==> u.image.None?)
  {
    assert forall k :: 0 <= k < |UserInsertColumns| ==> NoPlaceholder(UserInsertColumns[k]);
    assert NoPlaceholder("users");
    InsertTextPlaceholders("users", UserInsertColumns, |UserInsertColumns|);
  }

  /** createUser: hash the password, insert the row, answer 200 with the
      name, e-mail and image. A failed INSERT (a taken e-mail among them)
      answers 500. */
  function CreateUser(raw: RawNewUser, f: Formats, hash: string -> string, storeError: Option<string>): (r: Outcome)
    ensures ParseNewUser(raw, f).Invalid? ==> r == Outcome(Fail(ValidationError), [])
    ensures ParseNewUser(raw, f).Valid? ==>
      r.queries == [Statement(InsertUserSql, NewUserParams(ParseNewUser(raw, f).value, hash))]
    ensures r.response.status == 200 <==> ParseNewUser(raw, f).Valid? && storeError.None?
    ensures r.response.status != 200 ==> r.response.status == 500
    ensures r.response.status == 200 ==>
      var u := ParseNewUser(raw, f).value; r.response.body == CreatedUserJson(u.name, u.email, u.image)
  {
    match ParseNewUser(raw, f)
    case Invalid => Outcome(Fail(ValidationError), [])
    case Valid(u) =>
      var insert := Statement(InsertUserSql, NewUserParams(u, hash));
      if storeError.Some? then Outcome(Fail(StoreError(storeError.value)), [insert])
      else Outcome(Response(200, CreatedUserJson(u.name, u.email, u.image)), [insert])
  }

  // ---------------------------------------------------------------------------
  // updateUser

  datatype RawProfile = RawProfile(name: Option<string>, email: Option<string>, image: Option<string>)

  datatype Profile = Profile(name: string, email: string, image: Option<string>)

  const ProfileNameChecks: seq<Check> := [NonEmpty, MaxLength(100), Trim]
  const ProfileEmailChecks: seq<Check> := [NonEmpty, MaxLength(100), Trim, Email]
  const ProfileImageChecks: seq<Check> := [MaxLength(255), Trim, Url]

  function ParseProfile(raw: RawProfile, f: Formats): Parsed<Profile>
  {
    var name := Required(ProfileNameChecks, raw.name, f);
    var email := Required(ProfileEmailChecks, raw.email, f);
    var image := Optional(ProfileImageChecks, raw.image, f);
    if name.Valid? && email.Valid? && image.Valid?
    then Valid(Profile(name.value, email.value, image.value))
    else Invalid
  }

  function TrimmedOption(v: Option<string>): Option<string>
  {
    if v.Some? then Some(TrimText(v.value)) else None
  }

  /** The profile schema: name and e-mail are required even when only the
      image is written; the length bounds apply to the text as sent and the
      format checks to the trimmed text. */
  lemma ProfileSchema(raw: RawProfile, f: Formats)
    ensures ParseProfile(raw, f).Valid? <==>
      && raw.name.Some? && 1 <= JsLength(raw.name.value) <= 100
      && raw.email.Some? && 1 <= JsLength(raw.email.value) <= 100 && f.isEmail(TrimText(raw.email.value))
      && (raw.image.None? || (JsLength(raw.image.value) <= 255 && f.isUrl(TrimText(raw.image.value))))
    ensures ParseProfile(raw, f).Valid? ==>
      ParseProfile(raw, f).value ==
        Profile(TrimText(raw.name.value), TrimText(raw.email.value), TrimmedOption(raw.image))
  {
    ProfileNameField(raw.name, f);
    ProfileEmailField(raw.email, f);
    ProfileImageField(raw.image, f);
  }

  lemma ProfileNameField(v: Option<string>, f: Formats)
    ensures Required(ProfileNameChecks, v, f) ==
      if v.Some? && 1 <= JsLength(v.value) <= 100 then Valid(TrimText(v.value)) else Invalid
  {
    if v.Some? {
      var before := [NonEmpty, MaxLength(100)];
      assert ProfileNameChecks == before + [Trim] + [];
      RunChecksTrimmed(before, [], v.value, f);
      assert AllAccept(before, v.value, f) <==> Accepts(before[0], v.value, f) && Accepts(before[1], v.value, f);
    }
  }

  lemma ProfileEmailField(v: Option<string>, f: Formats)
    ensures Required(ProfileEmailChecks, v, f) ==
      if v.Some? && 1 <= JsLength(v.value) <= 100 && f.isEmail(TrimText(v.value)) then Valid(TrimText(v.value)) else Invalid
  {
    if v.Some? {
      var s := v.value;
      var before := [NonEmpty, MaxLength(100)];
      assert ProfileEmailChecks == before + [Trim] + [Email];
      RunChecksTrimmed(before, [Email], s, f);
      assert AllAccept(before, s, f) <==> Accepts(before[0], s, f) && Accepts(before[1], s, f);
      assert AllAccept([Email], TrimText(s), f) <==> Accepts([Email][0], TrimText(s), f);
    }
  }

  lemma ProfileImageField(v: Option<string>, f: Formats)
    ensures Optional(ProfileImageChecks, v, f) ==
      if v.None? then Valid(None)
      else if JsLength(v.value) <= 255 && f.isUrl(TrimText(v.value)) then Valid(Some(TrimText(v.value)))
      else Invalid
  {
    if v.Some? {
      var s := v.value;
      assert ProfileImageChecks == [MaxLength(255)] + [Trim] + [Url];
      RunChecksTrimmed([MaxLength(255)], [Url], s, f);
      assert AllAccept([MaxLength(255)], s, f) <==> Accepts([MaxLength(255)][0], s, f);
      assert AllAccept([Url], TrimText(s), f) <==> Accepts([Url][0], TrimText(s), f);
    }
  }

  /** A name made of white space passes `nonempty()`, which runs before
      `.trim()`, and is stored as the empty string. */
  lemma BlankNameStoredEmpty(raw: RawProfile, f: Formats)
    requires raw.name.Some? && 1 <= JsLength(raw.name.value) <= 100
    requires forall k :: 0 <= k < |raw.name.value| ==> IsJsSpace(raw.name.value[k])
    requires ParseProfile(raw, f).Valid?
    ensures ParseProfile(raw, f).value.name == ""
  {
    ProfileSchema(raw, f);
    TrimBlank(raw.name.value);
  }

  /** `if (parsedBody.image)`: present and not the empty string. */
  predicate HasImage(image: Option<string>)
  {
    image.Some? && image.value != ""
  }

  /** The one write updateUser sends for the caller with id `id`. */
  function ProfileWrite(p: Profile, id: int): UserWrite
  {
    if HasImage(p.image) then SetImage(p.image.value, id) else SetNameEmail(p.name, p.email, id)
  }

  /** updateUser: write the image alone when one is given, otherwise the name
      and the e-mail, on the row of the session user. */
  function UpdateUser(raw: RawProfile, f: Formats, session: Option<Principal>, storeError: Option<string>): (r: Outcome)
    ensures ParseProfile(raw, f).Invalid? ==> r == Outcome(Fail(ValidationError), [])
    ensures ParseProfile(raw, f).Valid? && session.None? ==> r == Outcome(Fail(TypeError), [])
    ensures ParseProfile(raw, f).Valid? && session.Some? ==>
      r.queries == [WriteStatement(ProfileWrite(ParseProfile(raw, f).value, session.value.id))]
    ensures r.response.status == 200 <==> ParseProfile(raw, f).Valid? && session.Some? && storeError.None?
    ensures r.response.status != 200 ==> r.response.status == 500
  {
    match ParseProfile(raw, f)
    case Invalid => Outcome(Fail(ValidationError), [])
    case Valid(p) =>
      if session.None? then Outcome(Fail(TypeError), [])
      else
        var write := WriteStatement(ProfileWrite(p, session.value.id));
        if storeError.Some? then Outcome(Fail(StoreError(storeError.value)), [write])
        else Outcome(Response(200, Empty), [write])
  }

  /** With an image, only `user_image` of the caller's row changes: every
      name, e-mail, id and password stays. */
  lemma ImageWriteKeepsNameAndEmail(users: seq<UserRow>, p: Profile, id: int)
    requires HasImage(p.image)
    ensures var after := Apply(users, ProfileWrite(p, id));
      && |after| == |users|
      && forall k :: 0 <= k < |users| ==>
        && after[k].(userImage := users[k].userImage) == users[k]
        && after[k].userImage == (if users[k].id == id then Some(p.image.value) else users[k].userImage)
  {
  }

  /** Without an image, only the caller's name and e-mail change: every
      image, id and password stays. */
  lemma NameEmailWriteKeepsImage(users: seq<UserRow>, p: Profile, id: int)
    requires !HasImage(p.image)
    ensures var after := Apply(users, ProfileWrite(p, id));
      && |after| == |users|
      && forall k :: 0 <= k < |users| ==>
        && after[k].(userName := users[k].userName, userEmail := users[k].userEmail) == users[k]
        && (users[k].id == id ==> after[k].userName == p.name && after[k].userEmail == p.email)
        && (users[k].id != id ==> after[k] == users[k])
  {
  }

  // ---------------------------------------------------------------------------
  // deleteUser

  /** The guard: the stored name, e-mail and id all equal the session's. */
  predicate MatchesSession(row: UserRow, p: Principal)
  {
    row.userName == p.name && row.userEmail == p.email && row.id == p.id
  }

  /** The guard passes exactly when the row yields the session principal. */
  lemma MatchesSessionIsIdentity(row: UserRow, p: Principal)
    ensures MatchesSession(row, p) <==> PrincipalOf(row) == p
  {
  }

  /** Whether deleteUser lets the session delete the account at `pathId`. */
  predicate Owns(pathId: Option<int>, session: Option<Principal>, users: seq<UserRow>)
  {
    && pathId.Some? && pathId.value >= 1
    && FindById(users, pathId.value).Some?
    && session.Some?
    && MatchesSession(FindById(users, pathId.value).value, session.value)
  }

  /** deleteUser: validate the path id, read the row, compare it with the
      session principal and delete it only on a full match. `pathId` is
      `Number(req.params.id)`, None when that is NaN. */
  function DeleteUser(pathId: Option<int>, session: Option<Principal>, users: seq<UserRow>,
                      selectError: Option<string>, deleteError: Option<string>): (r: Outcome)
    ensures pathId.None? || pathId.value < 1 ==> r == Outcome(Fail(ValidationError), [])
    ensures pathId.Some? && pathId.value >= 1 ==>
      |r.queries| >= 1 && r.queries[0] == Statement(SelectUserByIdSql, [Int(pathId.value)])
    ensures pathId.Some? && pathId.value >= 1 && selectError.Some? ==>
      r == Outcome(Fail(StoreError(selectError.value)), [Statement(SelectUserByIdSql, [Int(pathId.value)])])
    ensures pathId.Some? && pathId.value >= 1 && selectError.None? && FindById(users, pathId.value).None? ==>
      r.response == Fail(TypeError)
    ensures r.response.status == 403 <==>
      && pathId.Some? && pathId.value >= 1 && selectError.None?
      && FindById(users, pathId.value).Some? && session.Some?
      && !MatchesSession(FindById(users, pathId.value).value, session.value)
    ensures |r.queries| == 2 <==> selectError.None? && Owns(pathId, session, users)
    ensures |r.queries| == 2 ==> r.queries[1] == WriteStatement(DeleteById(pathId.value))
    ensures r.response.status == 204 <==> selectError.None? && Owns(pathId, session, users) && deleteError.None?
  {
    if pathId.None? || pathId.value < 1 then Outcome(Fail(ValidationError), [])
    else
      var id := pathId.value;
      var select := Statement(SelectUserByIdSql, [Int(id)]);
      if selectError.Some? then Outcome(Fail(StoreError(selectError.value)), [select])
      else match FindById(users, id)
      case None => Outcome(Fail(TypeError), [select])
      case Some(row) =>
        if session.None? then Outcome(Fail(TypeError), [select])
        else if !MatchesSession(row, session.value) then Outcome(Response(403, Empty), [select])
        else
          var delete := WriteStatement(DeleteById(id));
          if deleteError.Some? then Outcome(Fail(StoreError(deleteError.value)), [select, delete])
          else Outcome(Response(204, Empty), [select, delete])
  }

  /** A granted deletion removes exactly the session user's rows and keeps
      every other row. */
  lemma DeleteUserRemovesOnlyCaller(pathId: Option<int>, session: Option<Principal>, users: seq<UserRow>)
    requires DeleteUser(pathId, session, users, None, None).response.status == 204
    ensures pathId.value == session.value.id
    ensures forall row :: row in Apply(users, DeleteById(pathId.value)) <==>
      row in users && row.id != session.value.id
  {
  }

  /** A refused or failed lookup sends no write: the only statement is the read. */
  lemma DeleteUserRefusedSendsNoWrite(pathId: Option<int>, session: Option<Principal>, users: seq<UserRow>,
                                      selectError: Option<string>, e: Option<string>)
    requires selectError.Some? || !Owns(pathId, session, users)
    ensures forall q :: q in DeleteUser(pathId, session, users, selectError, e).queries ==> q.sql == SelectUserByIdSql
  {
  }
}
