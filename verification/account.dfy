/** The `account` routes: registration, login, email update and the
    `@me` profile read. */
module AccountRoutes {
  import opened Prelude
  import opened Models

  datatype RegisterForm = RegisterForm(username: Text, email: Text, password: Text, confPassword: Text, agreed: bool)

  datatype LoginForm = LoginForm(email: Text, password: Text, rememberMe: bool)

  /** Outcomes of the driver calls of `register`, in call order. */
  datatype RegisterIo = RegisterIo(usernameLookup: Option<string>, emailLookup: Option<string>, insert: Option<string>)

  /** Outcomes of a lookup followed by an `update_one`. */
  datatype LookupUpdateIo = LookupUpdateIo(lookup: Option<string>, update: Option<string>)

  const NameExists: Response := Fail(200, 200, "Name already exists!")
  const EmailExists: Response := Fail(200, 200, "Email already exists!")
  const PasswordMismatch: Response := Fail(200, 200, "Password does not match")
  const Done: Response := Http(200, Envelope(200, true, NoPayload))
  const AccountNotFound: Response := Fail(404, 404, "Account not found.")
  const SessionNotFound: Response := Fail(404, 404, "Session not found.")
  const MissingSession: Response := Http(401, Envelope(401, false, NoPayload))

  function SessionStarted(token: Text): Response {
    Http(200, Envelope(200, true, SessionIssued(token)))
  }

  // ---------------------------------------------------------------------
  // register
  // ---------------------------------------------------------------------

  /** The account `register` inserts: name as typed, lower-cased email and
      password encrypted, every optional field empty. */
  function NewAccount(env: Env, form: RegisterForm, id: Text, now: int): Account {
    Account(now, id, form.username, env.encrypt(env.lower(form.email)), env.encrypt(form.password),
            None, None, None, None)
  }

  /** `register`, with the ciphertext the email-uniqueness lookup searches
      for as a parameter. */
  function RegisterWith(env: Env, store: Store, form: RegisterForm, id: Text, now: int, io: RegisterIo, emailKey: Text): Reply {
    if io.usernameLookup.Some? then Reply(ServerError(io.usernameLookup.value), store)
    else if FindAccount(env, store.accounts, ByUsername(form.username)).Some? then Reply(NameExists, store)
    else if io.emailLookup.Some? then Reply(ServerError(io.emailLookup.value), store)
    else if FindAccount(env, store.accounts, ByEmail(emailKey)).Some? then Reply(EmailExists, store)
    else if form.password != form.confPassword then Reply(PasswordMismatch, store)
    else
      match io.insert
      case Some(error) => Reply(ServerError(error), store)
      case None => Reply(Done, store.(accounts := store.accounts + [NewAccount(env, form, id, now)]))
  }

  /** `register` as written: the uniqueness lookup encrypts the email as
      typed, while the inserted account holds the lower-cased one. */
  function Register(env: Env, store: Store, form: RegisterForm, id: Text, now: int, io: RegisterIo): (reply: Reply)
    ensures reply.store.skins == store.skins && reply.store.files == store.files
    ensures reply.response == NameExists <==>
      io.usernameLookup.None? && NameTaken(env, store.accounts, form.username)
    ensures reply.response == EmailExists <==>
      && io.usernameLookup.None? && !NameTaken(env, store.accounts, form.username)
      && io.emailLookup.None? && EmailStored(store.accounts, env.encrypt(form.email))
    ensures reply.response == PasswordMismatch <==>
      && io.usernameLookup.None? && !NameTaken(env, store.accounts, form.username)
      && io.emailLookup.None? && !EmailStored(store.accounts, env.encrypt(form.email))
      && form.password != form.confPassword
    ensures reply.response == Done <==>
      && io == RegisterIo(None, None, None)
      && !NameTaken(env, store.accounts, form.username)
      && !EmailStored(store.accounts, env.encrypt(form.email))
      && form.password == form.confPassword
    ensures reply.response == Done ==> reply.store.accounts == store.accounts + [NewAccount(env, form, id, now)]
    ensures io.usernameLookup.Some? ==> reply == Reply(ServerError(io.usernameLookup.value), store)
    ensures io.usernameLookup.None? && !NameTaken(env, store.accounts, form.username) && io.emailLookup.Some? ==>
      reply == Reply(ServerError(io.emailLookup.value), store)
    ensures (io.usernameLookup.None? && io.emailLookup.None? && !NameTaken(env, store.accounts, form.username)
             && !EmailStored(store.accounts, env.encrypt(form.email)) && form.password == form.confPassword
             && io.insert.Some?) ==>
      reply == Reply(ServerError(io.insert.value), store)
    ensures reply.response != Done ==> reply.store == store
  {
    RegisterWith(env, store, form, id, now, io, env.encrypt(form.email))
  }

  /** `register` with the lookup searching for the ciphertext it stores. */
  function RegisterFixed(env: Env, store: Store, form: RegisterForm, id: Text, now: int, io: RegisterIo): (reply: Reply)
    ensures reply.store.skins == store.skins && reply.store.files == store.files
    ensures reply.response == NameExists <==>
      io.usernameLookup.None? && NameTaken(env, store.accounts, form.username)
    ensures reply.response == EmailExists <==>
      && io.usernameLookup.None? && !NameTaken(env, store.accounts, form.username)
      && io.emailLookup.None? && EmailStored(store.accounts, env.encrypt(env.lower(form.email)))
    ensures reply.response == PasswordMismatch <==>
      && io.usernameLookup.None? && !NameTaken(env, store.accounts, form.username)
      && io.emailLookup.None? && !EmailStored(store.accounts, env.encrypt(env.lower(form.email)))
      && form.password != form.confPassword
    ensures reply.response == Done <==>
      && io == RegisterIo(None, None, None)
      && !NameTaken(env, store.accounts, form.username)
      && !EmailStored(store.accounts, env.encrypt(env.lower(form.email)))
      && form.password == form.confPassword
    ensures reply.response == Done ==> reply.store.accounts == store.accounts + [NewAccount(env, form, id, now)]
    ensures io.usernameLookup.Some? ==> reply == Reply(ServerError(io.usernameLookup.value), store)
    ensures io.usernameLookup.None? && !NameTaken(env, store.accounts, form.username) && io.emailLookup.Some? ==>
      reply == Reply(ServerError(io.emailLookup.value), store)
    ensures (io.usernameLookup.None? && io.emailLookup.None? && !NameTaken(env, store.accounts, form.username)
             && !EmailStored(store.accounts, env.encrypt(env.lower(form.email))) && form.password == form.confPassword
             && io.insert.Some?) ==>
      reply == Reply(ServerError(io.insert.value), store)
    ensures reply.response != Done ==> reply.store == store
  {
    RegisterWith(env, store, form, id, now, io, env.encrypt(env.lower(form.email)))
  }

  // ---------------------------------------------------------------------
  // login
  // ---------------------------------------------------------------------

  /** `login`, with the ciphertext the credential lookup uses for the email
      as a parameter.  The new session token is the ciphertext of a fresh
      UUID. */
  function LoginWith(env: Env, store: Store, form: LoginForm, uuid: Text, io: LookupUpdateIo, emailKey: Text): Reply {
    var token := env.encrypt(uuid);
    if io.lookup.Some? then Reply(Http(500, PlainText(io.lookup.value)), store)
    else
      match FindAccount(env, store.accounts, ByCredentials(emailKey, env.encrypt(form.password)))
      case None => Reply(AccountNotFound, store)
      case Some(i) =>
        if io.update.Some? then Reply(ServerError(io.update.value), store)
        else
          var accounts' := UpdateOne(env, store.accounts, ById(store.accounts[i].id), SetSession(token));
          Reply(SessionStarted(token), store.(accounts := accounts'))
  }

  /** Some account holds exactly these encrypted credentials. */
  predicate CredentialsKnown(accounts: seq<Account>, email: Text, password: Text) {
    exists a :: a in accounts && a.email == email && a.password == password
  }

  /** What `LoginWith` does, for any email ciphertext. */
  lemma LoginWithEffect(env: Env, store: Store, form: LoginForm, uuid: Text, io: LookupUpdateIo, emailKey: Text)
    ensures var reply := LoginWith(env, store, form, uuid, io, emailKey);
      var token := env.encrypt(uuid);
      && reply.store.skins == store.skins && reply.store.files == store.files
      && |reply.store.accounts| == |store.accounts|
      && (reply.response == SessionStarted(token) <==>
            io == LookupUpdateIo(None, None) && CredentialsKnown(store.accounts, emailKey, env.encrypt(form.password)))
      && (reply.response == AccountNotFound <==>
            io.lookup.None? && !CredentialsKnown(store.accounts, emailKey, env.encrypt(form.password)))
      && (reply.response != SessionStarted(token) ==> reply.store == store)
      && (io.lookup.Some? ==> reply == Reply(Http(500, PlainText(io.lookup.value)), store))
      && (io.lookup.None? && io.update.Some? && CredentialsKnown(store.accounts, emailKey, env.encrypt(form.password)) ==>
            reply == Reply(ServerError(io.update.value), store))
      && (reply.response == SessionStarted(token) ==>
            var i := FindAccount(env, store.accounts, ByCredentials(emailKey, env.encrypt(form.password))).value;
            exists k :: 0 <= k < |store.accounts| && store.accounts[k].id == store.accounts[i].id &&
              reply.store.accounts == store.accounts[k := store.accounts[k].(session := Some(token))])
      && (AccountIdsUnique(store.accounts) && reply.response == SessionStarted(token) ==>
            var i := FindAccount(env, store.accounts, ByCredentials(emailKey, env.encrypt(form.password))).value;
            reply.store.accounts == store.accounts[i := store.accounts[i].(session := Some(token))])
  {
    var q := ByCredentials(emailKey, env.encrypt(form.password));
    FoundIffExists(env, store.accounts, q);
    var found := FindAccount(env, store.accounts, q);
    if found.Some? {
      UpdateFound(env, store.accounts, found.value, SetSession(env.encrypt(uuid)));
    }
  }

  /** `login` as written: the email is encrypted as typed. */
  function Login(env: Env, store: Store, form: LoginForm, uuid: Text, io: LookupUpdateIo): (reply: Reply)
    ensures reply.store.skins == store.skins && reply.store.files == store.files
    ensures |reply.store.accounts| == |store.accounts|
    ensures reply.response == SessionStarted(env.encrypt(uuid)) <==>
      io == LookupUpdateIo(None, None)
      && CredentialsKnown(store.accounts, env.encrypt(form.email), env.encrypt(form.password))
    ensures reply.response == AccountNotFound <==>
      io.lookup.None? && !CredentialsKnown(store.accounts, env.encrypt(form.email), env.encrypt(form.password))
    ensures io.lookup.Some? ==> reply == Reply(Http(500, PlainText(io.lookup.value)), store)
    ensures io.lookup.None? && io.update.Some? && CredentialsKnown(store.accounts, env.encrypt(form.email), env.encrypt(form.password)) ==>
      reply == Reply(ServerError(io.update.value), store)
    ensures reply.response != SessionStarted(env.encrypt(uuid)) ==> reply.store == store
    ensures reply.response == SessionStarted(env.encrypt(uuid)) ==>
      var i := FindAccount(env, store.accounts, ByCredentials(env.encrypt(form.email), env.encrypt(form.password))).value;
      exists k :: 0 <= k < |store.accounts| && store.accounts[k].id == store.accounts[i].id &&
        reply.store.accounts == store.accounts[k := store.accounts[k].(session := Some(env.encrypt(uuid)))]
    ensures AccountIdsUnique(store.accounts) && reply.response == SessionStarted(env.encrypt(uuid)) ==>
      var i := FindAccount(env, store.accounts, ByCredentials(env.encrypt(form.email), env.encrypt(form.password))).value;
      reply.store.accounts == store.accounts[i := store.accounts[i].(session := Some(env.encrypt(uuid)))]
  {
    LoginWithEffect(env, store, form, uuid, io, env.encrypt(form.email));
    LoginWith(env, store, form, uuid, io, env.encrypt(form.email))
  }

  /** `login` with the email lower-cased before it is encrypted, as
      `register` stores it. */
  function LoginFixed(env: Env, store: Store, form: LoginForm, uuid: Text, io: LookupUpdateIo): (reply: Reply)
    ensures reply.store.skins == store.skins && reply.store.files == store.files
    ensures |reply.store.accounts| == |store.accounts|
    ensures reply.response == SessionStarted(env.encrypt(uuid)) <==>
      io == LookupUpdateIo(None, None)
      && CredentialsKnown(store.accounts, env.encrypt(env.lower(form.email)), env.encrypt(form.password))
    ensures reply.response == AccountNotFound <==>
      io.lookup.None? && !CredentialsKnown(store.accounts, env.encrypt(env.lower(form.email)), env.encrypt(form.password))
    ensures io.lookup.Some? ==> reply == Reply(Http(500, PlainText(io.lookup.value)), store)
    ensures io.lookup.None? && io.update.Some? && CredentialsKnown(store.accounts, env.encrypt(env.lower(form.email)), env.encrypt(form.password)) ==>
      reply == Reply(ServerError(io.update.value), store)
    ensures reply.response != SessionStarted(env.encrypt(uuid)) ==> reply.store == store
    ensures reply.response == SessionStarted(env.encrypt(uuid)) ==>
      var i := FindAccount(env, store.accounts, ByCredentials(env.encrypt(env.lower(form.email)), env.encrypt(form.password))).value;
      exists k :: 0 <= k < |store.accounts| && store.accounts[k].id == store.accounts[i].id &&
        reply.store.accounts == store.accounts[k := store.accounts[k].(session := Some(env.encrypt(uuid)))]
    ensures AccountIdsUnique(store.accounts) && reply.response == SessionStarted(env.encrypt(uuid)) ==>
      var i := FindAccount(env, store.accounts, ByCredentials(env.encrypt(env.lower(form.email)), env.encrypt(form.password))).value;
      reply.store.accounts == store.accounts[i := store.accounts[i].(session := Some(env.encrypt(uuid)))]
  {
    LoginWithEffect(env, store, form, uuid, io, env.encrypt(env.lower(form.email)));
    LoginWith(env, store, form, uuid, io, env.encrypt(env.lower(form.email)))
  }

  // ---------------------------------------------------------------------
  // @me and email update
  // ---------------------------------------------------------------------

  function View(a: Account, email: Text): AccountView {
    AccountView(a.id, email, a.date, a.session, a.username, a.aboutMe, a.profilePicture, a.skins)
  }

  /** The `@me` response for an account; the handler panics when the stored
      email does not decrypt. */
  function Shown(env: Env, a: Account): Response {
    match env.decrypt(a.email)
    case None => Panic("stored email does not decrypt")
    case Some(email) => Http(200, Envelope(200, true, AccountData(View(a, email))))
  }

  /** Some account's current session is exactly `token`. */
  predicate SessionKnown(store: Store, token: Text) {
    exists a :: a in store.accounts && a.session == Some(token)
  }

  /** `GET account/@me`: read-only. */
  function Me(env: Env, store: Store, header: Option<Text>, lookup: Option<string>): (r: Response)
    ensures header.None? ==> r == MissingSession
    ensures header.Some? && lookup.Some? ==> r == ServerError(lookup.value)
    ensures header.Some? && lookup.None? && !SessionKnown(store, header.value) ==> r == SessionNotFound
    ensures r.Http? && r.body.Envelope? && r.body.payload.AccountData? ==>
      var v := r.body.payload.account;
      exists a :: a in store.accounts && a.session == header && env.decrypt(a.email) == Some(v.email) && v == View(a, v.email)
    ensures r.Panic? ==> exists a :: a in store.accounts && a.session == header && env.decrypt(a.email).None?
    ensures header.Some? && lookup.None? && SessionOwner(env, store, header.value).Some? ==>
      r == Shown(env, store.accounts[SessionOwner(env, store, header.value).value])
  {
    match header
    case None => MissingSession
    case Some(token) =>
      FoundIffExists(env, store.accounts, BySession(token));
      if lookup.Some? then ServerError(lookup.value)
      else
        match SessionOwner(env, store, token)
        case None => SessionNotFound
        case Some(i) =>
          assert store.accounts[i] in store.accounts;
          Shown(env, store.accounts[i])
  }

  /** `PATCH account/email`, with the ciphertext written into the session
      owner's `email` field as a parameter. */
  function UpdateEmailWith(env: Env, store: Store, header: Option<Text>, stored: Text, io: LookupUpdateIo): (reply: Reply)
    ensures reply.store.skins == store.skins && reply.store.files == store.files
    ensures |reply.store.accounts| == |store.accounts|
    ensures header.None? ==> reply == Reply(Unauthenticated, store)
    ensures header.Some? && io.lookup.Some? ==> reply == Reply(ServerError(io.lookup.value), store)
    ensures header.Some? && io.lookup.None? && !SessionKnown(store, header.value) ==> reply == Reply(Unauthenticated, store)
    ensures header.Some? && io.lookup.None? && SessionKnown(store, header.value) && io.update.Some? ==>
      reply == Reply(ServerError(io.update.value), store)
    ensures reply.response == Done <==>
      header.Some? && io == LookupUpdateIo(None, None) && SessionKnown(store, header.value)
    ensures reply.response != Done ==> reply.store == store
    ensures reply.response == Done ==>
      var i := SessionOwner(env, store, header.value).value;
      exists k :: 0 <= k < |store.accounts| && store.accounts[k].id == store.accounts[i].id
        &&
        reply.store.accounts == store.accounts[k := store.accounts[k].(email := stored)]
    ensures AccountIdsUnique(store.accounts) && reply.response == Done ==>
      var i := SessionOwner(env, store, header.value).value;
      reply.store.accounts == store.accounts[i := store.accounts[i].(email := stored)]
  {
    match header
    case None => Reply(Unauthenticated, store)
    case Some(token) =>
      FoundIffExists(env, store.accounts, BySession(token));
      if io.lookup.Some? then Reply(ServerError(io.lookup.value), store)
      else
        match SessionOwner(env, store, token)
        case None => Reply(Unauthenticated, store)
        case Some(i) =>
          if io.update.Some? then Reply(ServerError(io.update.value), store)
          else
            UpdateFound(env, store.accounts, i, SetEmail(stored));
            assert store.accounts[i] in store.accounts;
            Reply(Done, store.(accounts := UpdateOne(env, store.accounts, ById(store.accounts[i].id), SetEmail(stored))))
  }

  /** `PATCH account/email` as written: the session's account gets the
      ciphertext of the new email as typed. */
  function UpdateEmail(env: Env, store: Store, header: Option<Text>, email: Text, io: LookupUpdateIo): (reply: Reply)
    ensures reply.store.skins == store.skins && reply.store.files == store.files
    ensures |reply.store.accounts| == |store.accounts|
    ensures header.None? ==> reply == Reply(Unauthenticated, store)
    ensures header.Some? && io.lookup.Some? ==> reply == Reply(ServerError(io.lookup.value), store)
    ensures header.Some? && io.lookup.None? && !SessionKnown(store, header.value) ==> reply == Reply(Unauthenticated, store)
    ensures header.Some? && io.lookup.None? && SessionKnown(store, header.value) && io.update.Some? ==>
      reply == Reply(ServerError(io.update.value), store)
    ensures reply.response == Done <==>
      header.Some? && io == LookupUpdateIo(None, None) && SessionKnown(store, header.value)
    ensures reply.response != Done ==> reply.store == store
    ensures reply.response == Done ==>
      var i := SessionOwner(env, store, header.value).value;
      exists k :: 0 <= k < |store.accounts| && store.accounts[k].id == store.accounts[i].id
        &&
        reply.store.accounts == store.accounts[k := store.accounts[k].(email := env.encrypt(email))]
    ensures AccountIdsUnique(store.accounts) && reply.response == Done ==>
      var i := SessionOwner(env, store, header.value).value;
      reply.store.accounts == store.accounts[i := store.accounts[i].(email := env.encrypt(email))]
  {
    UpdateEmailWith(env, store, header, env.encrypt(email), io)
  }

  /** `PATCH account/email` storing the lower-cased address, as `register`
      does, so that `LoginFixed` finds it. */
  function UpdateEmailFixed(env: Env, store: Store, header: Option<Text>, email: Text, io: LookupUpdateIo): (reply: Reply)
    ensures reply.store.skins == store.skins && reply.store.files == store.files
    ensures |reply.store.accounts| == |store.accounts|
    ensures header.None? ==> reply == Reply(Unauthenticated, store)
    ensures header.Some? && io.lookup.Some? ==> reply == Reply(ServerError(io.lookup.value), store)
    ensures header.Some? && io.lookup.None? && !SessionKnown(store, header.value) ==> reply == Reply(Unauthenticated, store)
    ensures header.Some? && io.lookup.None? && SessionKnown(store, header.value) && io.update.Some? ==>
      reply == Reply(ServerError(io.update.value), store)
    ensures reply.response == Done <==>
      header.Some? && io == LookupUpdateIo(None, None) && SessionKnown(store, header.value)
    ensures reply.response != Done ==> reply.store == store
    ensures reply.response == Done ==>
      var i := SessionOwner(env, store, header.value).value;
      exists k :: 0 <= k < |store.accounts| && store.accounts[k].id == store.accounts[i].id
        && reply.store.accounts == store.accounts[k := store.accounts[k].(email := env.encrypt(env.lower(email)))]
    ensures AccountIdsUnique(store.accounts) && reply.response == Done ==>
      var i := SessionOwner(env, store, header.value).value;
      reply.store.accounts == store.accounts[i := store.accounts[i].(email := env.encrypt(env.lower(email)))]
  {
    UpdateEmailWith(env, store, header, env.encrypt(env.lower(email)), io)
  }
}
