/** Properties of the account routes that relate several calls: the
    uniqueness invariants `register` and `login` keep, the session that
    `login` issues and `@me` accepts, and the two places where the email
    case handling of `register` and `login` disagree. */
module AccountFacts {
  import opened Prelude
  import opened Models
  import opened AccountRoutes

  // ---------------------------------------------------------------------
  // register
  // ---------------------------------------------------------------------

  /** A successful `register` keeps usernames unique ignoring case. */
  lemma RegisterKeepsUsernamesUnique(env: Env, store: Store, form: RegisterForm, id: Text, now: int, io: RegisterIo)
    requires UsernamesUnique(env, store.accounts)
    ensures UsernamesUnique(env, Register(env, store, form, id, now, io).store.accounts)
  {
    var reply := Register(env, store, form, id, now, io);
    if reply.response == Done {
      var accounts := reply.store.accounts;
      forall i, j | 0 <= i < j < |accounts|
        ensures !SameIgnoringCase(env, accounts[i].username, accounts[j].username)
      {
        if j == |store.accounts| {
          assert accounts[i] in store.accounts;
        }
      }
    }
  }

  /** A successful `register` with a fresh id keeps account ids unique. */
  lemma RegisterKeepsIdsUnique(env: Env, store: Store, form: RegisterForm, id: Text, now: int, io: RegisterIo)
    requires AccountIdsUnique(store.accounts)
    requires forall a :: a in store.accounts ==> a.id != id
    ensures AccountIdsUnique(Register(env, store, form, id, now, io).store.accounts)
  {
    var reply := Register(env, store, form, id, now, io);
    if reply.response == Done {
      var accounts := reply.store.accounts;
      forall i, j | 0 <= i < j < |accounts|
        ensures accounts[i].id != accounts[j].id
      {
        if j == |store.accounts| {
          assert accounts[i] in store.accounts;
        }
      }
    }
  }

  /** When the email is typed in lower case, the lookup searches for the
      ciphertext `register` stores, so stored emails stay unique. */
  lemma RegisterKeepsLowerCaseEmailsUnique(env: Env, store: Store, form: RegisterForm, id: Text, now: int, io: RegisterIo)
    requires EmailsUnique(store.accounts)
    requires env.lower(form.email) == form.email
    ensures EmailsUnique(Register(env, store, form, id, now, io).store.accounts)
  {
    var reply := Register(env, store, form, id, now, io);
    if reply.response == Done {
      var accounts := reply.store.accounts;
      forall i, j | 0 <= i < j < |accounts|
        ensures accounts[i].email != accounts[j].email
      {
        if j == |store.accounts| {
          assert accounts[i] in store.accounts;
        }
      }
    }
  }

  /** As written, `register` accepts an address that differs only in case
      from a stored one and stores the same ciphertext a second time:
      with "a@x.com" registered, registering "A@x.com" succeeds. */
  lemma RegisterCanDuplicateEmail(env: Env, store: Store, form: RegisterForm, id: Text, now: int)
    requires EmailsUnique(store.accounts)
    requires !NameTaken(env, store.accounts, form.username)
    requires form.password == form.confPassword
    requires EmailStored(store.accounts, env.encrypt(env.lower(form.email)))
    requires !EmailStored(store.accounts, env.encrypt(form.email))
    ensures Register(env, store, form, id, now, RegisterIo(None, None, None)).response == Done
    ensures !EmailsUnique(Register(env, store, form, id, now, RegisterIo(None, None, None)).store.accounts)
  {
    var accounts := Register(env, store, form, id, now, RegisterIo(None, None, None)).store.accounts;
    var a :| a in store.accounts && a.email == env.encrypt(env.lower(form.email));
    var i :| 0 <= i < |store.accounts| && store.accounts[i] == a;
    assert accounts[i].email == accounts[|store.accounts|].email;
  }

  /** The corrected `register` keeps every account invariant, stored email
      uniqueness included, whatever the case of the typed address. */
  lemma RegisterFixedKeepsAccountsUnique(env: Env, store: Store, form: RegisterForm, id: Text, now: int, io: RegisterIo)
    requires UsernamesUnique(env, store.accounts) && EmailsUnique(store.accounts) && AccountIdsUnique(store.accounts)
    requires forall a :: a in store.accounts ==> a.id != id
    ensures var accounts := RegisterFixed(env, store, form, id, now, io).store.accounts;
      UsernamesUnique(env, accounts) && EmailsUnique(accounts) && AccountIdsUnique(accounts)
  {
    var reply := RegisterFixed(env, store, form, id, now, io);
    if reply.response == Done {
      var accounts := reply.store.accounts;
      forall i, j | 0 <= i < j < |accounts|
        ensures !SameIgnoringCase(env, accounts[i].username, accounts[j].username)
        ensures accounts[i].email != accounts[j].email
        ensures accounts[i].id != accounts[j].id
      {
        if j == |store.accounts| {
          assert accounts[i] in store.accounts;
        }
      }
    }
  }

  /** Once a name is registered, registering any case variant of it fails
      with "Name already exists!". */
  lemma RegisterRejectsCaseVariant(env: Env, store: Store, form: RegisterForm, id: Text, now: int, io: RegisterIo,
                                   form2: RegisterForm, id2: Text, now2: int, io2: RegisterIo)
    requires Register(env, store, form, id, now, io).response == Done
    requires SameIgnoringCase(env, form2.username, form.username)
    requires io2.usernameLookup.None?
    ensures var after := Register(env, store, form, id, now, io).store;
      Register(env, after, form2, id2, now2, io2).response == NameExists
  {
    var after := Register(env, store, form, id, now, io).store;
    assert after.accounts[|store.accounts|] in after.accounts;
  }

  // ---------------------------------------------------------------------
  // register then login
  // ---------------------------------------------------------------------

  /** As written, an account registered with an email that lower-casing
      changes cannot log in with that same email and password: `login`
      encrypts the address as typed, `register` stored it lower-cased. */
  lemma MixedCaseEmailCannotLogIn(env: Env, store: Store, form: RegisterForm, id: Text, now: int, io: RegisterIo,
                                  rememberMe: bool, uuid: Text, io2: LookupUpdateIo)
    requires Injective(env.encrypt)
    requires env.lower(form.email) != form.email
    requires Register(env, store, form, id, now, io).response == Done
    requires io2.lookup.None?
    ensures var after := Register(env, store, form, id, now, io).store;
      Login(env, after, LoginForm(form.email, form.password, rememberMe), uuid, io2).response == AccountNotFound
  {
    var after := Register(env, store, form, id, now, io).store;
    assert env.encrypt(env.lower(form.email)) != env.encrypt(form.email);
    forall a | a in after.accounts
      ensures !(a.email == env.encrypt(form.email) && a.password == env.encrypt(form.password))
    {
      if a !in store.accounts {
        assert a == NewAccount(env, form, id, now);
      }
    }
  }

  /** With the corrected pair, the email and password just registered log
      in, and the session lands on the new account. */
  lemma RegisteredCanLogIn(env: Env, store: Store, form: RegisterForm, id: Text, now: int, io: RegisterIo,
                           rememberMe: bool, uuid: Text)
    requires RegisterFixed(env, store, form, id, now, io).response == Done
    ensures var after := RegisterFixed(env, store, form, id, now, io).store;
      var reply := LoginFixed(env, after, LoginForm(form.email, form.password, rememberMe), uuid, LookupUpdateIo(None, None));
      && reply.response == SessionStarted(env.encrypt(uuid))
      && (AccountIdsUnique(after.accounts) ==>
            reply.store.accounts[|store.accounts|].session == Some(env.encrypt(uuid)))
  {
    var after := RegisterFixed(env, store, form, id, now, io).store;
    var login := LoginForm(form.email, form.password, rememberMe);
    assert after.accounts[|store.accounts|] in after.accounts;
    var q := ByCredentials(env.encrypt(env.lower(form.email)), env.encrypt(form.password));
    forall j | 0 <= j < |store.accounts|
      ensures !AccountMatches(env, q, after.accounts[j])
    {
      assert after.accounts[j] in store.accounts;
    }
    LoginWithEffect(env, after, login, uuid, LookupUpdateIo(None, None), env.encrypt(env.lower(form.email)));
  }

  // ---------------------------------------------------------------------
  // login, @me and sessions
  // ---------------------------------------------------------------------

  /** `login` changes no username, email or id, so it keeps every account
      invariant. */
  lemma LoginKeepsAccountsUnique(env: Env, store: Store, form: LoginForm, uuid: Text, io: LookupUpdateIo)
    requires UsernamesUnique(env, store.accounts) && EmailsUnique(store.accounts) && AccountIdsUnique(store.accounts)
    ensures var accounts := Login(env, store, form, uuid, io).store.accounts;
      UsernamesUnique(env, accounts) && EmailsUnique(accounts) && AccountIdsUnique(accounts)
  {
    var reply := Login(env, store, form, uuid, io);
    if reply.response == SessionStarted(env.encrypt(uuid)) {
      var k :| 0 <= k < |store.accounts| &&
        reply.store.accounts == store.accounts[k := store.accounts[k].(session := Some(env.encrypt(uuid)))];
      var accounts := reply.store.accounts;
      assert forall i :: 0 <= i < |accounts| ==>
        accounts[i].username == store.accounts[i].username
        && accounts[i].email == store.accounts[i].email
        && accounts[i].id == store.accounts[i].id;
    }
  }

  /** The token `login` returns authenticates `@me` as the account that
      logged in, provided no account already held that token. */
  lemma LoginThenMe(env: Env, store: Store, form: LoginForm, uuid: Text, io: LookupUpdateIo)
    requires AccountIdsUnique(store.accounts)
    requires Login(env, store, form, uuid, io).response == SessionStarted(env.encrypt(uuid))
    requires !SessionKnown(store, env.encrypt(uuid))
    ensures var after := Login(env, store, form, uuid, io).store;
      var i := FindAccount(env, store.accounts, ByCredentials(env.encrypt(form.email), env.encrypt(form.password))).value;
      Me(env, after, Some(env.encrypt(uuid)), None) == Shown(env, after.accounts[i])
  {
    var after := Login(env, store, form, uuid, io).store;
    var token := env.encrypt(uuid);
    var i := FindAccount(env, store.accounts, ByCredentials(env.encrypt(form.email), env.encrypt(form.password))).value;
    forall j | 0 <= j < i
      ensures !AccountMatches(env, BySession(token), after.accounts[j])
    {
      assert store.accounts[j] in store.accounts;
    }
    assert AccountMatches(env, BySession(token), after.accounts[i]);
    assert SessionOwner(env, after, token) == Some(i);
  }

  /** After `login`, no token but the new one resolves to the account that
      logged in: its previous session is gone. */
  lemma LoginEndsPreviousSession(env: Env, store: Store, form: LoginForm, uuid: Text, io: LookupUpdateIo, previous: Text)
    requires AccountIdsUnique(store.accounts)
    requires Login(env, store, form, uuid, io).response == SessionStarted(env.encrypt(uuid))
    requires previous != env.encrypt(uuid)
    ensures var after := Login(env, store, form, uuid, io).store;
      var i := FindAccount(env, store.accounts, ByCredentials(env.encrypt(form.email), env.encrypt(form.password))).value;
      SessionOwner(env, after, previous) != Some(i)
  {
  }

  // ---------------------------------------------------------------------
  // update_email
  // ---------------------------------------------------------------------

  /** The new address, typed exactly as given to `update_email`, logs in
      with the account's password: neither side lower-cases it. */
  lemma UpdateEmailThenLogin(env: Env, store: Store, token: Text, email: Text, io: LookupUpdateIo,
                             password: Text, rememberMe: bool, uuid: Text)
    requires AccountIdsUnique(store.accounts)
    requires UpdateEmail(env, store, Some(token), email, io).response == Done
    requires store.accounts[SessionOwner(env, store, token).value].password == env.encrypt(password)
    ensures var after := UpdateEmail(env, store, Some(token), email, io).store;
      Login(env, after, LoginForm(email, password, rememberMe), uuid, LookupUpdateIo(None, None)).response
        == SessionStarted(env.encrypt(uuid))
  {
    var after := UpdateEmail(env, store, Some(token), email, io).store;
    var i := SessionOwner(env, store, token).value;
    assert after.accounts[i] in after.accounts;
  }

  /** With every email write and lookup lower-cased, the new address logs
      in in any case variant that lower-cases alike, including as typed. */
  lemma UpdateEmailFixedThenLoginFixed(env: Env, store: Store, token: Text, email: Text, io: LookupUpdateIo,
                                       typed: Text, password: Text, rememberMe: bool, uuid: Text)
    requires AccountIdsUnique(store.accounts)
    requires UpdateEmailFixed(env, store, Some(token), email, io).response == Done
    requires store.accounts[SessionOwner(env, store, token).value].password == env.encrypt(password)
    requires env.lower(typed) == env.lower(email)
    ensures var after := UpdateEmailFixed(env, store, Some(token), email, io).store;
      LoginFixed(env, after, LoginForm(typed, password, rememberMe), uuid, LookupUpdateIo(None, None)).response
        == SessionStarted(env.encrypt(uuid))
  {
    var after := UpdateEmailFixed(env, store, Some(token), email, io).store;
    var i := SessionOwner(env, store, token).value;
    assert after.accounts[i] in after.accounts;
  }

  /** `update_email` checks nothing about the new address, so it can give
      two accounts the same stored email. */
  lemma UpdateEmailCanDuplicate(env: Env, store: Store, token: Text, email: Text, io: LookupUpdateIo, j: nat)
    requires AccountIdsUnique(store.accounts)
    requires UpdateEmail(env, store, Some(token), email, io).response == Done
    requires j < |store.accounts| && store.accounts[j].email == env.encrypt(email)
    requires SessionOwner(env, store, token) != Some(j)
    ensures !EmailsUnique(UpdateEmail(env, store, Some(token), email, io).store.accounts)
  {
    var accounts := UpdateEmail(env, store, Some(token), email, io).store.accounts;
    var i := SessionOwner(env, store, token).value;
    assert accounts[i].email == accounts[j].email;
  }
}
