/** The documents the handlers read and write, the document store they live
    in, the store's `find_one` / `find` / `update_one` semantics, and the
    JSON responses the handlers build. */
module Models {
  import opened Prelude

  datatype SkinRef = SkinRef(id: Text)

  /** One document of the `accounts` collection. */
  datatype Account = Account(
    date: int,
    id: Text,
    username: Text,
    email: Text,                        // ciphertext
    password: Text,                     // ciphertext
    session: Option<Text>,
    aboutMe: Option<Text>,
    profilePicture: Option<Text>,
    skins: Option<seq<SkinRef>>)

  datatype SkinMeta = Image(width: nat, height: nat, contentType: string)

  /** One document of the `skins` collection.  The upload handler writes
      documents without an owner; `owner` is present only on documents
      written by other code. */
  datatype SkinRecord = SkinRecord(
    date: int,
    id: Text,
    hash: Text,
    filename: Text,
    size: nat,
    title: Text,
    description: Text,
    metadata: SkinMeta,
    owner: Option<Text>)

  /** Both collections, in natural (insertion) order, and the skin files on
      disk, keyed by the skin id their path is built from. */
  datatype Store = Store(accounts: seq<Account>, skins: seq<SkinRecord>, files: map<Text, Bytes>)

  // ---------------------------------------------------------------------
  // Queries
  // ---------------------------------------------------------------------

  /** The filter documents the handlers pass to the `accounts` collection. */
  datatype AccountFilter =
    | BySession(token: Text)
    | ByUsername(name: Text)
    | ByEmail(email: Text)
    | ByCredentials(email: Text, password: Text)
    | ById(id: Text)

  predicate AccountMatches(env: Env, q: AccountFilter, a: Account) {
    match q
    case BySession(t) => a.session == Some(t)
    case ByUsername(n) => SameIgnoringCase(env, a.username, n)
    case ByEmail(e) => a.email == e
    case ByCredentials(e, p) => a.email == e && a.password == p
    case ById(id) => a.id == id
  }

  /** `find_one` on the accounts: the position of the first match. */
  function FindAccount(env: Env, accounts: seq<Account>, q: AccountFilter): (r: Option<nat>)
    ensures r.Some? ==> r.value < |accounts| && AccountMatches(env, q, accounts[r.value])
    ensures r.Some? ==> forall j :: 0 <= j < r.value ==> !AccountMatches(env, q, accounts[j])
    ensures r.None? <==> forall j :: 0 <= j < |accounts| ==> !AccountMatches(env, q, accounts[j])
  {
    if |accounts| == 0 then None
    else if AccountMatches(env, q, accounts[0]) then Some(0)
    else
      match FindAccount(env, accounts[1..], q)
      case None => None
      case Some(k) => Some(k + 1)
  }

  /** The filter documents the handlers pass to the `skins` collection. */
  datatype SkinFilter =
    | ByHash(hash: Text)
    | ByTitle(title: Text)
    | ByOwner(owner: Text)

  predicate SkinMatches(env: Env, q: SkinFilter, s: SkinRecord) {
    match q
    case ByHash(h) => s.hash == h
    case ByTitle(t) => SameIgnoringCase(env, s.title, t)
    case ByOwner(o) => s.owner == Some(o)
  }

  /** `find_one` on the skins: the position of the first match. */
  function FindSkin(env: Env, skins: seq<SkinRecord>, q: SkinFilter): (r: Option<nat>)
    ensures r.Some? ==> r.value < |skins| && SkinMatches(env, q, skins[r.value])
    ensures r.Some? ==> forall j :: 0 <= j < r.value ==> !SkinMatches(env, q, skins[j])
    ensures r.None? <==> forall j :: 0 <= j < |skins| ==> !SkinMatches(env, q, skins[j])
  {
    if |skins| == 0 then None
    else if SkinMatches(env, q, skins[0]) then Some(0)
    else
      match FindSkin(env, skins[1..], q)
      case None => None
      case Some(k) => Some(k + 1)
  }

  /** The positions of the skins matching `q`: strictly increasing, and
      containing every matching position and nothing else. */
  function MatchPositions(env: Env, skins: seq<SkinRecord>, q: SkinFilter): (idx: seq<nat>)
    ensures forall k :: 0 <= k < |idx| ==> idx[k] < |skins| && SkinMatches(env, q, skins[idx[k]])
    ensures forall k, l :: 0 <= k < l < |idx| ==> idx[k] < idx[l]
    ensures forall j :: 0 <= j < |skins| && SkinMatches(env, q, skins[j]) ==> j in idx
  {
    if |skins| == 0 then []
    else
      var rest := MatchPositions(env, skins[..|skins| - 1], q);
      if SkinMatches(env, q, skins[|skins| - 1]) then rest + [|skins| - 1] else rest
  }

  /** `find` on the skins: every match, in natural order, each once. */
  function SelectSkins(env: Env, skins: seq<SkinRecord>, q: SkinFilter): (r: seq<SkinRecord>)
    ensures |r| <= |skins|
    ensures forall s :: s in r <==> s in skins && SkinMatches(env, q, s)
    ensures |r| == |MatchPositions(env, skins, q)|
    ensures forall k :: 0 <= k < |r| ==> r[k] == skins[MatchPositions(env, skins, q)[k]]
  {
    if |skins| == 0 then []
    else
      var rest := SelectSkins(env, skins[..|skins| - 1], q);
      var last := skins[|skins| - 1];
      assert skins == skins[..|skins| - 1] + [last];
      if SkinMatches(env, q, last) then rest + [last] else rest
  }

  /** The single-field `$set` updates the handlers issue. */
  datatype AccountUpdate = SetSession(token: Text) | SetEmail(email: Text)

  function Apply(a: Account, u: AccountUpdate): Account {
    match u
    case SetSession(t) => a.(session := Some(t))
    case SetEmail(e) => a.(email := e)
  }

  /** `update_one`: apply `u` to the first account matching `q`, if any. */
  function UpdateOne(env: Env, accounts: seq<Account>, q: AccountFilter, u: AccountUpdate): seq<Account> {
    match FindAccount(env, accounts, q)
    case None => accounts
    case Some(i) => accounts[i := Apply(accounts[i], u)]
  }

  /** Some account's username equals `name` ignoring case. */
  predicate NameTaken(env: Env, accounts: seq<Account>, name: Text) {
    exists a :: a in accounts && SameIgnoringCase(env, a.username, name)
  }

  /** Some account stores exactly this (encrypted) email. */
  predicate EmailStored(accounts: seq<Account>, email: Text) {
    exists a :: a in accounts && a.email == email
  }

  // ---------------------------------------------------------------------
  // Uniqueness invariants the handlers' checks are meant to keep
  // ---------------------------------------------------------------------

  ghost predicate AccountIdsUnique(accounts: seq<Account>) {
    forall i, j :: 0 <= i < j < |accounts| ==> accounts[i].id != accounts[j].id
  }

  ghost predicate UsernamesUnique(env: Env, accounts: seq<Account>) {
    forall i, j :: 0 <= i < j < |accounts| ==> !SameIgnoringCase(env, accounts[i].username, accounts[j].username)
  }

  ghost predicate EmailsUnique(accounts: seq<Account>) {
    forall i, j :: 0 <= i < j < |accounts| ==> accounts[i].email != accounts[j].email
  }

  ghost predicate SkinsUnique(env: Env, skins: seq<SkinRecord>) {
    forall i, j :: 0 <= i < j < |skins| ==>
      && skins[i].id != skins[j].id
      && skins[i].hash != skins[j].hash
      && !SameIgnoringCase(env, skins[i].title, skins[j].title)
  }

  // ---------------------------------------------------------------------
  // Responses
  // ---------------------------------------------------------------------

  /** What `GET account/@me` shows: every field, with the email decrypted. */
  datatype AccountView = AccountView(
    id: Text, email: Text, date: int, session: Option<Text>, username: Text,
    aboutMe: Option<Text>, profilePicture: Option<Text>, skins: Option<seq<SkinRef>>)

  /** What `GET user/{username}` shows. */
  datatype PublicUser = PublicUser(id: Text, username: Text, aboutMe: Option<Text>, profilePicture: Option<Text>)

  /** One element of the `get_user_skins` array. */
  datatype SkinSummary = SkinSummary(id: Text, date: int, title: Text, description: Text, owner: Text)

  datatype Payload =
    | NoPayload
    | Failure(error: string)
    | SkinCreated(skin: Text)
    | SessionIssued(token: Text)
    | AccountData(account: AccountView)

  /** A JSON body: the usual status envelope, or one of the two bare
      bodies of the public user routes, or a plain-text error body. */
  datatype Body =
    | Envelope(status: int, success: bool, payload: Payload)
    | PublicProfile(user: PublicUser)
    | SkinList(items: seq<SkinSummary>)
    | PlainText(text: string)

  /** An HTTP response, or a panic that ends the handler. */
  datatype Response = Http(code: int, body: Body) | Panic(reason: string)

  /** A handler's response together with the store it leaves behind. */
  datatype Reply = Reply(response: Response, store: Store)

  function Fail(code: int, status: int, message: string): Response {
    Http(code, Envelope(status, false, Failure(message)))
  }

  /** A driver error, reported with its own text. */
  function ServerError(message: string): Response {
    Fail(500, 500, message)
  }

  const Unauthenticated: Response := Fail(401, 401, "Could not authenticate request.")

  /** The `x-session` lookup shared by the authenticated routes. */
  function SessionOwner(env: Env, store: Store, token: Text): Option<nat> {
    FindAccount(env, store.accounts, BySession(token))
  }

  /** Some account matches `q` exactly when `find_one` finds one. */
  lemma FoundIffExists(env: Env, accounts: seq<Account>, q: AccountFilter)
    ensures FindAccount(env, accounts, q).None? <==> forall a :: a in accounts ==> !AccountMatches(env, q, a)
  {
    if FindAccount(env, accounts, q).None? {
      forall a | a in accounts ensures !AccountMatches(env, q, a) {
        var j :| 0 <= j < |accounts| && accounts[j] == a;
      }
    }
  }

  /** The handlers' "find one, then `update_one` by its id": exactly one
      account changes, and with unique ids it is the one found. */
  lemma UpdateFound(env: Env, accounts: seq<Account>, i: nat, u: AccountUpdate)
    requires i < |accounts|
    ensures var r := UpdateOne(env, accounts, ById(accounts[i].id), u);
      && (exists k :: 0 <= k < |accounts| && accounts[k].id == accounts[i].id && r == accounts[k := Apply(accounts[k], u)])
      && (AccountIdsUnique(accounts) ==> r == accounts[i := Apply(accounts[i], u)])
  {
    FindByOwnId(env, accounts, i);
    assert AccountMatches(env, ById(accounts[i].id), accounts[i]);
    var k := FindAccount(env, accounts, ById(accounts[i].id)).value;
    assert UpdateOne(env, accounts, ById(accounts[i].id), u) == accounts[k := Apply(accounts[k], u)];
  }

  /** With unique ids, `update_one` by an account's id reaches that very account. */
  lemma FindByOwnId(env: Env, accounts: seq<Account>, i: nat)
    requires i < |accounts|
    ensures AccountIdsUnique(accounts) ==> FindAccount(env, accounts, ById(accounts[i].id)) == Some(i)
  {
    assert AccountMatches(env, ById(accounts[i].id), accounts[i]);
  }
}
