/** The public `user` routes: a profile looked up by name, and the skins
    whose owner is that user.  Both only read the store. */
module UserRoutes {
  import opened Prelude
  import opened Models
  import AccountRoutes
  import SkinRoutes

  const ProfileNotFound: Response := Fail(404, 404, "Not found")
  const OwnerNotFound: Response := Fail(404, 404, "User not found")

  /** The four fields `GET user/{username}` discloses. */
  function PublicOf(a: Account): PublicUser {
    PublicUser(a.id, a.username, a.aboutMe, a.profilePicture)
  }

  /** `GET user/{username}`. */
  function Index(env: Env, store: Store, username: Text, lookup: Option<string>): (r: Response)
    ensures lookup.Some? ==> r == ServerError(lookup.value)
    ensures lookup.None? && !NameTaken(env, store.accounts, username) ==> r == ProfileNotFound
    ensures lookup.None? && NameTaken(env, store.accounts, username) ==> r.Http? && r.code == 200 && r.body.PublicProfile?
    ensures r.Http? && r.body.PublicProfile? ==>
      exists a :: a in store.accounts && SameIgnoringCase(env, a.username, username) && r.body.user == PublicOf(a)
    ensures lookup.None? && NameTaken(env, store.accounts, username) ==>
      r == Http(200, PublicProfile(PublicOf(store.accounts[FindAccount(env, store.accounts, ByUsername(username)).value])))
  {
    FoundIffExists(env, store.accounts, ByUsername(username));
    if lookup.Some? then ServerError(lookup.value)
    else
      match FindAccount(env, store.accounts, ByUsername(username))
      case None => ProfileNotFound
      case Some(i) =>
        assert store.accounts[i] in store.accounts;
        Http(200, PublicProfile(PublicOf(store.accounts[i])))
  }

  /** With usernames unique ignoring case, `index` shows the one account
      whose name matches. */
  lemma IndexFindsTheNamedAccount(env: Env, store: Store, username: Text, a: Account)
    requires UsernamesUnique(env, store.accounts)
    requires a in store.accounts && SameIgnoringCase(env, a.username, username)
    ensures Index(env, store, username, None) == Http(200, PublicProfile(PublicOf(a)))
  {
    var k :| 0 <= k < |store.accounts| && store.accounts[k] == a;
    assert AccountMatches(env, ByUsername(username), store.accounts[k]);
    var i := FindAccount(env, store.accounts, ByUsername(username)).value;
    if i < k {
      assert SameIgnoringCase(env, store.accounts[i].username, store.accounts[k].username);
    }
  }

  /** A name just registered is found by `index` under any case variant,
      and shows the new account. */
  lemma RegisterThenIndex(env: Env, store: Store, form: AccountRoutes.RegisterForm, id: Text, now: int,
                          io: AccountRoutes.RegisterIo, name: Text)
    requires AccountRoutes.Register(env, store, form, id, now, io).response == AccountRoutes.Done
    requires SameIgnoringCase(env, name, form.username)
    ensures var after := AccountRoutes.Register(env, store, form, id, now, io).store;
      Index(env, after, name, None) == Http(200, PublicProfile(PublicOf(AccountRoutes.NewAccount(env, form, id, now))))
  {
    var after := AccountRoutes.Register(env, store, form, id, now, io).store;
    forall j | 0 <= j < |store.accounts|
      ensures !AccountMatches(env, ByUsername(name), after.accounts[j])
    {
      assert after.accounts[j] in store.accounts;
    }
    assert AccountMatches(env, ByUsername(name), after.accounts[|store.accounts|]);
  }

  // ---------------------------------------------------------------------
  // get_user_skins (defined, though the router does not mount it)
  // ---------------------------------------------------------------------

  /** Outcomes of the driver calls: the user lookup, the `find`, and an
      optional cursor error, raised in place of the item at that position. */
  datatype SkinsIo = SkinsIo(userLookup: Option<string>, find: Option<string>, cursorError: Option<(nat, string)>)

  /** One item the cursor yields. */
  datatype Item = Doc(record: SkinRecord) | ItemError(error: string)

  function Docs(records: seq<SkinRecord>): (items: seq<Item>)
    ensures |items| == |records|
    ensures forall i :: 0 <= i < |items| ==> items[i] == Doc(records[i])
  {
    seq(|records|, i requires 0 <= i < |records| => Doc(records[i]))
  }

  /** The items of a cursor over `matches`: all of them, or the first `k`
      followed by an error. */
  function CursorItems(matches: seq<SkinRecord>, error: Option<(nat, string)>): (items: seq<Item>)
    ensures error.Some? && error.value.0 <= |matches| ==>
      |items| == error.value.0 + 1 && items[error.value.0] == ItemError(error.value.1)
    ensures error.None? || |matches| < error.value.0 ==> items == Docs(matches)
    ensures forall j :: 0 <= j < |items| && items[j].Doc? ==> j < |matches| && items[j].record == matches[j]
    ensures forall j :: 0 <= j < |items| && items[j].ItemError? ==>
      error.Some? && j == error.value.0 && items[j].error == error.value.1
  {
    match error
    case Some((k, e)) => if k <= |matches| then Docs(matches[..k]) + [ItemError(e)] else Docs(matches)
    case None => Docs(matches)
  }

  /** The response element for a stored skin. */
  function Summary(r: SkinRecord): SkinSummary {
    SkinSummary(r.id, r.date, r.title, r.description, r.owner.GetOr([]))
  }

  function Summaries(records: seq<SkinRecord>): (s: seq<SkinSummary>)
    ensures |s| == |records|
    ensures forall i :: 0 <= i < |s| ==> s[i] == Summary(records[i])
  {
    seq(|records|, i requires 0 <= i < |records| => Summary(records[i]))
  }

  /** The skins owned by the account with id `owner`, in natural order. */
  function Owned(env: Env, store: Store, owner: Text): seq<SkinRecord> {
    SelectSkins(env, store.skins, ByOwner(owner))
  }

  /** `get_user_skins`: the first account whose name matches,
      then every skin it owns, or a 500 as soon as the cursor fails. */
  method GetUserSkins(env: Env, store: Store, username: Text, io: SkinsIo) returns (r: Response)
    ensures io.userLookup.Some? ==> r == ServerError(io.userLookup.value)
    ensures io.userLookup.None? && !NameTaken(env, store.accounts, username) ==> r == OwnerNotFound
    ensures io.userLookup.None? && NameTaken(env, store.accounts, username) && io.find.Some? ==> r.Panic?
    ensures io.userLookup.None? && io.find.None? && NameTaken(env, store.accounts, username) ==>
      var user := store.accounts[FindAccount(env, store.accounts, ByUsername(username)).value];
      var matches := Owned(env, store, user.id);
      match io.cursorError
      case Some((k, e)) =>
        r == if k <= |matches| then ServerError(e) else Http(200, SkinList(Summaries(matches)))
      case None => r == Http(200, SkinList(Summaries(matches)))
    ensures r.Http? && r.body.SkinList? ==>
      exists a :: a in store.accounts && SameIgnoringCase(env, a.username, username)
        && forall s :: s in r.body.items ==> s.owner == a.id
  {
    FoundIffExists(env, store.accounts, ByUsername(username));
    if io.userLookup.Some? {
      return ServerError(io.userLookup.value);
    }
    var found := FindAccount(env, store.accounts, ByUsername(username));
    if found.None? {
      return OwnerNotFound;
    }
    var user := store.accounts[found.value];
    assert user in store.accounts;
    if io.find.Some? {
      return Panic("unwrap on a failed find");
    }
    var matches := Owned(env, store, user.id);
    var results, error := Drain(CursorItems(matches, io.cursorError));
    if error.Some? {
      return ServerError(error.value);
    }
    assert results == Summaries(matches);
    OwnedSkinsBelongTo(env, store, user.id);
    return Http(200, SkinList(results));
  }

  /** Walks a cursor to its end: the summary of every document, or the
      first error, with the partial results dropped. */
  method Drain(items: seq<Item>) returns (results: seq<SkinSummary>, error: Option<string>)
    ensures error.None? ==>
      && |results| == |items|
      && forall j :: 0 <= j < |items| ==> items[j].Doc? && results[j] == Summary(items[j].record)
    ensures error.Some? ==>
      exists j :: 0 <= j < |items| && items[j] == ItemError(error.value) && forall l :: 0 <= l < j ==> items[l].Doc?
  {
    results := [];
    var i := 0;
    while i < |items|
      invariant 0 <= i <= |items|
      invariant |results| == i
      invariant forall j :: 0 <= j < i ==> items[j].Doc? && results[j] == Summary(items[j].record)
    {
      match items[i]
      case ItemError(e) =>
        return [], Some(e);
      case Doc(record) =>
        results := results + [Summary(record)];
      i := i + 1;
    }
    return results, None;
  }

  /** Every listed skin names the user as its owner. */
  lemma OwnedSkinsBelongTo(env: Env, store: Store, owner: Text)
    ensures forall s :: s in Summaries(Owned(env, store, owner)) ==> s.owner == owner
  {
    var matches := Owned(env, store, owner);
    forall s | s in Summaries(matches) ensures s.owner == owner {
      var j :| 0 <= j < |matches| && Summaries(matches)[j] == s;
      assert matches[j] in matches;
    }
  }

  /** Upload records carry no owner, so an upload never changes what
      `get_user_skins` lists for anyone. */
  lemma UploadLeavesListingsUnchanged(env: Env, store: Store, header: Option<Text>, parts: seq<SkinRoutes.Part>,
                                      id: Text, now: int, io: SkinRoutes.UploadIo, owner: Text)
    ensures var after := SkinRoutes.UploadSkin(env, store, header, parts, id, now, io).store;
      Owned(env, after, owner) == Owned(env, store, owner)
  {
    var reply := SkinRoutes.UploadSkin(env, store, header, parts, id, now, io);
    if reply.store.skins != store.skins {
      assert reply.response == SkinRoutes.Created(id);
      var form :| SkinRoutes.Collect(env, SkinRoutes.Received(parts)) == Some(form)
        && reply == SkinRoutes.Ingest(env, store, form, id, now, io);
      var record := SkinRoutes.NewRecord(form, id, now, SkinRoutes.Fingerprint(env, form.buffer).value,
                                         SkinRoutes.Inspect(env, form.buffer).value);
      assert reply.store.skins == store.skins + [record];
      assert (store.skins + [record])[..|store.skins|] == store.skins;
    }
  }
}
