/** Properties that span several handlers: a login followed by the status
    endpoint, and what later requests of a signed-in session see after the
    account was changed or deleted. */
module Flows {
  import opened Types
  import opened UserController
  import opened LocalStrategy
  import opened AuthController

  /** Every row with e-mail `email` belongs to account `id`: the store's
      unique key on `user_email`, seen from one account. */
  predicate EmailOwnedBy(users: seq<UserRow>, email: string, id: int)
  {
    forall row :: row in users && row.userEmail == email ==> row.id == id
  }

  /** After a login, the next request's status answers 200 with the
      principal the login produced. */
  lemma LoginThenStatus(users: seq<UserRow>, email: string, password: string,
                        matches: (string, string) -> bool, p: Principal)
    requires Verify(users, email, password, matches, None) == Authenticated(p)
    ensures var restored := Deserialize(users, Serialize(p), None);
      restored.Restored? && Status(true, Some(restored.user), None) == Response(200, PrincipalJson(p))
  {
    SessionRoundTrip(users, email, password, matches, p);
  }

  /** Deleting one's own account does not end the session, but the next
      request can no longer restore it: the lookup by e-mail finds no row. */
  lemma DeletedAccountLosesSession(users: seq<UserRow>, p: Principal)
    requires DeleteUser(Some(p.id), Some(p), users, None, None).response.status == 204
    requires EmailOwnedBy(users, p.email, p.id)
    ensures Deserialize(Apply(users, DeleteById(p.id)), p, None) == NotRestored(TypeError)
  {
    var after := Apply(users, DeleteById(p.id));
    forall row | row in after ensures row.userEmail != p.email {
      assert row in users && row.id != p.id;
    }
  }

  /** A new name shows on the next request: the session is rebuilt from the
      current row, not from what was stored at login. */
  lemma RenameRefreshesSession(users: seq<UserRow>, p: Principal, name: string)
    requires FindByEmail(users, p.email).Some?
    requires EmailOwnedBy(users, p.email, p.id)
    ensures Deserialize(Apply(users, SetNameEmail(name, p.email, p.id)), p, None) ==
      Restored(Principal(name, p.email, p.id))
  {
    var after := Apply(users, SetNameEmail(name, p.email, p.id));
    var row := FindByEmail(users, p.email).value;
    var k :| 0 <= k < |users| && users[k] == row;
    assert after[k].userEmail == p.email;
    assert after[k] in after;
    var found := FindByEmail(after, p.email).value;
    var j :| 0 <= j < |after| && after[j] == found;
    assert users[j] in users;
    assert after[j] == Touch(users[j], SetNameEmail(name, p.email, p.id));
  }

  /** A new e-mail ends the session: it is restored by the e-mail kept at
      login, which no row holds any longer. */
  lemma EmailChangeEndsSession(users: seq<UserRow>, p: Principal, name: string, email: string)
    requires email != p.email
    requires EmailOwnedBy(users, p.email, p.id)
    ensures Deserialize(Apply(users, SetNameEmail(name, email, p.id)), p, None) == NotRestored(TypeError)
  {
    var after := Apply(users, SetNameEmail(name, email, p.id));
    forall row | row in after ensures row.userEmail != p.email {
      var j :| 0 <= j < |after| && after[j] == row;
      if users[j].id != p.id {
        assert users[j] in users;
      }
    }
  }
}
