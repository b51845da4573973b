/** `PUT skins/upload`: multipart collection, the ordered validation chain,
    the content fingerprint, duplicate checks, and the write-then-insert
    persistence step. */
module SkinRoutes {
  import opened Prelude
  import opened Models

  // ---------------------------------------------------------------------
  // Multipart collection
  // ---------------------------------------------------------------------

  /** One chunk of a multipart field: its bytes, or a stream error. */
  datatype Chunk = Data(bytes: Bytes) | Broken(error: string)

  /** A multipart field: its name, its chunks in arrival order and the file
      name of its content disposition. */
  datatype Field = Field(name: string, chunks: seq<Chunk>, filename: Option<Text>)

  /** One item of the multipart stream: a field, or an error. */
  datatype Part = Next(field: Field) | Failed(error: string)

  /** The handler's locals after the collection loop. */
  datatype Form = Form(title: Text, description: Text, buffer: Bytes, fileSize: nat, fileName: Text)

  const EmptyForm: Form := Form([], [], [], 0, [])

  /** The fields the collection loop sees: the stream up to its first error,
      which ends the loop like the end of the stream does. */
  function Received(parts: seq<Part>): (fs: seq<Field>)
    ensures |fs| <= |parts|
    ensures forall i :: 0 <= i < |fs| ==> parts[i] == Next(fs[i])
    ensures |fs| < |parts| ==> parts[|fs|].Failed?
  {
    if |parts| == 0 || parts[0].Failed? then []
    else [parts[0].field] + Received(parts[1..])
  }

  predicate IsTextField(f: Field) {
    f.name == "title" || f.name == "description"
  }

  /** Reading `f` panics: a chunk error in a field the loop reads, a text
      chunk that is not UTF-8, or a skin field without a file name.  Fields
      with any other name are skipped unread. */
  predicate FieldPanics(env: Env, f: Field) {
    || (IsTextField(f) && exists c :: c in f.chunks && (c.Broken? || !env.validUtf8(c.bytes)))
    || (f.name == "skin" && ((exists c :: c in f.chunks && c.Broken?) || f.filename.None?))
  }

  /** The bytes of a sequence of chunks, in order. */
  function ChunkBytes(chunks: seq<Chunk>): Bytes {
    if |chunks| == 0 then []
    else (match chunks[0] case Data(b) => b case Broken(_) => []) + ChunkBytes(chunks[1..])
  }

  /** The bytes of every `skin` field, in arrival order. */
  function SkinBytes(fs: seq<Field>): Bytes {
    if |fs| == 0 then []
    else (if fs[0].name == "skin" then ChunkBytes(fs[0].chunks) else []) + SkinBytes(fs[1..])
  }

  /** The position of the last field called `name` (with at least one chunk
      when `withData` holds). */
  function LastField(fs: seq<Field>, name: string, withData: bool): (r: Option<nat>)
    ensures r.Some? ==> r.value < |fs| && fs[r.value].name == name && (withData ==> |fs[r.value].chunks| > 0)
    ensures r.Some? ==> forall j :: r.value < j < |fs| ==> !(fs[j].name == name && (withData ==> |fs[j].chunks| > 0))
    ensures r.None? ==> forall j :: 0 <= j < |fs| ==> !(fs[j].name == name && (withData ==> |fs[j].chunks| > 0))
  {
    if |fs| == 0 then None
    else
      var last := fs[|fs| - 1];
      if last.name == name && (withData ==> |last.chunks| > 0) then Some(|fs| - 1)
      else LastField(fs[..|fs| - 1], name, withData)
  }

  /** The last chunk any field called `name` delivered, or empty. */
  function LastText(fs: seq<Field>, name: string): Text {
    match LastField(fs, name, true)
    case None => []
    case Some(i) =>
      var cs := fs[i].chunks;
      match cs[|cs| - 1] case Data(b) => b case Broken(_) => []
  }

  /** The file name of the last `skin` field, or empty. */
  function LastFileName(fs: seq<Field>): Text {
    match LastField(fs, "skin", false)
    case None => []
    case Some(i) => fs[i].filename.GetOr([])
  }

  /** The inner loop over a `title` or `description` field: each chunk,
      decoded as UTF-8, replaces the value.  None where the source panics. */
  function ReadText(env: Env, value: Text, chunks: seq<Chunk>): (r: Option<Text>)
    ensures r.Some? <==> forall c :: c in chunks ==> c.Data? && env.validUtf8(c.bytes)
    ensures r.Some? ==> r.value == (if |chunks| == 0 then value else chunks[|chunks| - 1].bytes)
    decreases |chunks|
  {
    if |chunks| == 0 then Some(value)
    else
      assert chunks[0] in chunks;
      match chunks[0]
      case Broken(_) => None
      case Data(b) =>
        if env.validUtf8(b) then
          assert forall c :: c in chunks[1..] ==> c in chunks;
          ReadText(env, b, chunks[1..])
        else None
  }

  /** The inner loop over a `skin` field: each chunk is appended to the
      buffer and counted.  None where the source panics. */
  function ReadSkin(buffer: Bytes, size: nat, chunks: seq<Chunk>): (r: Option<(Bytes, nat)>)
    ensures r.Some? <==> forall c :: c in chunks ==> c.Data?
    ensures r.Some? ==> r.value.0 == buffer + ChunkBytes(chunks)
    ensures r.Some? ==> r.value.1 == size + |ChunkBytes(chunks)|
    decreases |chunks|
  {
    if |chunks| == 0 then Some((buffer, size))
    else
      assert chunks[0] in chunks;
      match chunks[0]
      case Broken(_) => None
      case Data(b) =>
        assert forall c :: c in chunks[1..] ==> c in chunks;
        ReadSkin(buffer + b, size + |b|, chunks[1..])
  }

  /** One pass of the outer loop: the three name tests in source order. */
  function Absorb(env: Env, form: Form, f: Field): Option<Form> {
    if f.name == "title" then
      match ReadText(env, form.title, f.chunks)
      case None => None
      case Some(t) => Some(form.(title := t))
    else if f.name == "description" then
      match ReadText(env, form.description, f.chunks)
      case None => None
      case Some(d) => Some(form.(description := d))
    else if f.name == "skin" then
      match ReadSkin(form.buffer, form.fileSize, f.chunks)
      case None => None
      case Some(read) =>
        match f.filename
        case None => None
        case Some(n) => Some(form.(buffer := read.0, fileSize := read.1, fileName := n))
    else Some(form)
  }

  lemma SkinBytesSnoc(fs: seq<Field>, f: Field)
    ensures SkinBytes(fs + [f]) == SkinBytes(fs) + (if f.name == "skin" then ChunkBytes(f.chunks) else [])
  {
    if |fs| > 0 {
      assert (fs + [f])[1..] == fs[1..] + [f];
      SkinBytesSnoc(fs[1..], f);
    }
  }

  lemma LastFieldSnoc(fs: seq<Field>, f: Field, name: string, withData: bool)
    ensures LastField(fs + [f], name, withData) ==
      if f.name == name && (withData ==> |f.chunks| > 0) then Some(|fs|) else LastField(fs, name, withData)
  {
    assert (fs + [f])[..|fs|] == fs;
  }

  /** Absorbing one more field panics exactly when that field panics. */
  lemma AbsorbPanics(env: Env, form: Form, f: Field)
    ensures Absorb(env, form, f).None? <==> FieldPanics(env, f)
  {
  }

  /** One more field keeps the collected values equal to their definitions. */
  lemma AbsorbKeeps(env: Env, fs: seq<Field>, form: Form, f: Field)
    requires form.buffer == SkinBytes(fs) && form.fileSize == |form.buffer|
    requires form.title == LastText(fs, "title") && form.description == LastText(fs, "description")
    requires form.fileName == LastFileName(fs)
    requires Absorb(env, form, f).Some?
    ensures var next := Absorb(env, form, f).value;
      && next.buffer == SkinBytes(fs + [f])
      && next.fileSize == |next.buffer|
      && next.title == LastText(fs + [f], "title")
      && next.description == LastText(fs + [f], "description")
      && next.fileName == LastFileName(fs + [f])
  {
    SkinBytesSnoc(fs, f);
    LastFieldSnoc(fs, f, "title", true);
    LastFieldSnoc(fs, f, "description", true);
    LastFieldSnoc(fs, f, "skin", false);
    var fs' := fs + [f];
    var next := Absorb(env, form, f).value;
    if f.name == "title" {
      assert next == form.(title := next.title);
      if |f.chunks| > 0 {
        assert LastText(fs', "title") == (match f.chunks[|f.chunks| - 1] case Data(b) => b case Broken(_) => []);
      }
    } else if f.name == "description" {
      assert next == form.(description := next.description);
      if |f.chunks| > 0 {
        assert LastText(fs', "description") == (match f.chunks[|f.chunks| - 1] case Data(b) => b case Broken(_) => []);
      }
    } else if f.name == "skin" {
      var read := ReadSkin(form.buffer, form.fileSize, f.chunks).value;
      assert next == form.(buffer := read.0, fileSize := read.1, fileName := f.filename.value);
    } else {
      assert next == form;
    }
  }

  /** The collection loop over the received fields.  None where it panics;
      otherwise the skin bytes in arrival order, their count, and the last
      chunk of each text field. */
  function Collect(env: Env, fs: seq<Field>): (r: Option<Form>)
    ensures r.None? <==> exists i :: 0 <= i < |fs| && FieldPanics(env, fs[i])
    ensures r.Some? ==> r.value.buffer == SkinBytes(fs)
    ensures r.Some? ==> r.value.fileSize == |r.value.buffer|
    ensures r.Some? ==> r.value.title == LastText(fs, "title")
    ensures r.Some? ==> r.value.description == LastText(fs, "description")
    ensures r.Some? ==> r.value.fileName == LastFileName(fs)
  {
    if |fs| == 0 then Some(EmptyForm)
    else
      var init := fs[..|fs| - 1];
      var f := fs[|fs| - 1];
      assert fs == init + [f];
      assert forall i :: 0 <= i < |init| ==> init[i] == fs[i];
      match Collect(env, init)
      case None => None
      case Some(form) =>
        AbsorbPanics(env, form, f);
        if Absorb(env, form, f).Some? then
          AbsorbKeeps(env, init, form, f);
          Absorb(env, form, f)
        else None
  }

  // ---------------------------------------------------------------------
  // Validation chain
  // ---------------------------------------------------------------------

  const MaxSkinSize: nat := 5000
  const MaxTitleLength: nat := 16
  const MaxDescriptionLength: nat := 256
  const FingerprintLength: nat := 48

  const MissingFile: Response := Fail(404, 400, "Could not find skin file.")
  const TooLarge: Response := Fail(413, 413, "Skin file is too large. It must be less than 5KB!")
  const TitleTooLong: Response := Fail(403, 403, "Title cannot be larger than 16 characters!")
  const DescriptionTooLong: Response := Fail(403, 403, "Description cannot be larger than 256 characters!")
  const BadDimensions: Response := Fail(200, 400, "Skin must be 64x64 or 64x32")
  const DuplicateFile: Response := Fail(403, 403, "Skin file already exists!")
  const DuplicateTitle: Response := Fail(403, 401, "Title already exists!")

  function Created(id: Text): Response {
    Http(200, Envelope(200, true, SkinCreated(id)))
  }

  /** The form fits every bound the chain enforces. */
  predicate WithinBounds(form: Form) {
    && 0 < form.fileSize <= MaxSkinSize
    && 0 < |form.buffer|
    && |form.title| <= MaxTitleLength
    && |form.description| <= MaxDescriptionLength
  }

  /** The presence, size and field-length checks, first failure first. */
  function Rejection(form: Form): (r: Option<Response>)
    ensures r == Some(MissingFile) <==> form.fileSize == 0 || |form.buffer| == 0
    ensures r == Some(TooLarge) <==> 0 < |form.buffer| && MaxSkinSize < form.fileSize
    ensures r == Some(TitleTooLong) <==>
      0 < |form.buffer| && 0 < form.fileSize <= MaxSkinSize && MaxTitleLength < |form.title|
    ensures r == Some(DescriptionTooLong) <==>
      0 < |form.buffer| && 0 < form.fileSize <= MaxSkinSize && |form.title| <= MaxTitleLength
      && MaxDescriptionLength < |form.description|
    ensures r.None? <==> WithinBounds(form)
  {
    if form.fileSize == 0 || |form.buffer| == 0 then Some(MissingFile)
    else if form.fileSize > MaxSkinSize then Some(TooLarge)
    else if |form.title| > MaxTitleLength then Some(TitleTooLong)
    else if |form.description| > MaxDescriptionLength then Some(DescriptionTooLong)
    else None
  }

  predicate IsImageType(contentType: string) {
    contentType == "image/png" || contentType == "image/jpeg"
  }

  /** The dimensions of a Minecraft skin: 64 wide, 32 or 64 high. */
  predicate SkinShaped(width: nat, height: nat) {
    width == 64 && (height == 32 || height == 64)
  }

  const NoMeta: SkinMeta := Image(0, 0, "")

  /** Content sniffing and the dimension check.  None rejects the upload;
      only a decodable png or jpeg of the wrong shape does.  A type that is
      not png or jpeg, or an image whose size cannot be read, passes with
      zeroed metadata: the error response the source builds for the former
      is never returned. */
  function Inspect(env: Env, buffer: Bytes): (r: Option<SkinMeta>)
    ensures r.None? <==>
      IsImageType(env.sniff(buffer)) && env.dims(buffer).Some?
      && !SkinShaped(env.dims(buffer).value.0, env.dims(buffer).value.1)
    ensures r.Some? && r.value != NoMeta ==>
      && IsImageType(env.sniff(buffer))
      && r.value.contentType == env.sniff(buffer)
      && env.dims(buffer) == Some((r.value.width, r.value.height))
      && SkinShaped(r.value.width, r.value.height)
    ensures !IsImageType(env.sniff(buffer)) || env.dims(buffer).None? ==> r == Some(NoMeta)
    ensures (IsImageType(env.sniff(buffer)) && env.dims(buffer).Some?
             && SkinShaped(env.dims(buffer).value.0, env.dims(buffer).value.1)) ==>
      r == Some(Image(env.dims(buffer).value.0, env.dims(buffer).value.1, env.sniff(buffer)))
  {
    var contentType := env.sniff(buffer);
    if contentType == "image/jpeg" || contentType == "image/png" then
      match env.dims(buffer)
      case Some((width, height)) =>
        if (height != 32 && height != 64) || width != 64 then None
        else Some(Image(width, height, contentType))
      case None => Some(NoMeta)
    else Some(NoMeta)
  }

  /** The content fingerprint: the last 48 bytes of the ciphertext of the
      buffer's lossy UTF-8 decoding.  None where the slice would start before
      the ciphertext does, and the source panics. */
  function Fingerprint(env: Env, buffer: Bytes): (r: Option<Text>)
    ensures r.Some? <==> FingerprintLength <= |env.encrypt(env.lossy(buffer))|
    ensures r.Some? ==> |r.value| == FingerprintLength && EndsWith(env.encrypt(env.lossy(buffer)), r.value)
  {
    var cipher := env.encrypt(env.lossy(buffer));
    if |cipher| < FingerprintLength then None
    else Some(cipher[|cipher| - FingerprintLength..])
  }

  // ---------------------------------------------------------------------
  // Deduplication and persistence
  // ---------------------------------------------------------------------

  /** How the file system behaves when the skin file is written. */
  datatype FileOutcome =
    | CreateFailed                          // `File::create` fails: `expect` panics
    | WriteFailed(error: string, kept: nat) // `write_all` fails after `kept` bytes
    | Written

  /** The outcome of every driver and file-system call of one upload. */
  datatype UploadIo = UploadIo(
    sessionLookup: Option<string>,
    hashLookup: Option<string>,
    titleLookup: Option<string>,
    file: FileOutcome,
    insert: Option<string>)

  predicate HashTaken(skins: seq<SkinRecord>, hash: Text) {
    exists s :: s in skins && s.hash == hash
  }

  predicate TitleTaken(env: Env, skins: seq<SkinRecord>, title: Text) {
    exists s :: s in skins && SameIgnoringCase(env, s.title, title)
  }

  /** The record the handler inserts; it carries no owner. */
  function NewRecord(form: Form, id: Text, now: int, hash: Text, meta: SkinMeta): SkinRecord {
    SkinRecord(now, id, hash, form.fileName, form.fileSize, form.title, form.description, meta, None)
  }

  /** Create the file, write the buffer, then insert the record. */
  function Persist(store: Store, record: SkinRecord, buffer: Bytes, io: UploadIo): (reply: Reply)
    ensures reply.store.accounts == store.accounts
    ensures reply.response == Created(record.id) <==> io.file == Written && io.insert.None?
    ensures reply.response == Created(record.id) ==>
      reply.store == Store(store.accounts, store.skins + [record], store.files[record.id := buffer])
    ensures reply.response != Created(record.id) ==> reply.store.skins == store.skins
    ensures io.file == Written && io.insert.Some? ==>
      reply == Reply(ServerError(io.insert.value), store.(files := store.files[record.id := buffer]))
    ensures io.file == CreateFailed ==> reply.response.Panic? && reply.store == store
    ensures io.file.WriteFailed? ==>
      && reply.response == ServerError(io.file.error)
      && reply.store.skins == store.skins
      && record.id in reply.store.files
      && reply.store.files[record.id] <= buffer
      && |reply.store.files[record.id]| == (if io.file.kept < |buffer| then io.file.kept else |buffer|)
      && (forall k :: k != record.id ==>
            (k in reply.store.files <==> k in store.files)
            && (k in store.files ==> reply.store.files[k] == store.files[k]))
  {
    match io.file
    case CreateFailed =>
      Reply(Panic("There was an error creating a skin file!"), store)
    case WriteFailed(error, kept) =>
      var partial := buffer[..if kept < |buffer| then kept else |buffer|];
      Reply(ServerError(error), store.(files := store.files[record.id := partial]))
    case Written =>
      var written := store.(files := store.files[record.id := buffer]);
      match io.insert
      case Some(error) => Reply(ServerError(error), written)
      case None => Reply(Created(record.id), written.(skins := written.skins + [record]))
  }

  /** The form passes the validation chain and has a fingerprint. */
  predicate Admissible(env: Env, form: Form) {
    Rejection(form).None? && Inspect(env, form.buffer).Some? && Fingerprint(env, form.buffer).Some?
  }

  /** Everything after the collection loop: checks in source order, then at
      most one file write and one insert. */
  function Ingest(env: Env, store: Store, form: Form, id: Text, now: int, io: UploadIo): (reply: Reply)
    ensures reply.store.accounts == store.accounts
    ensures reply.response.Panic? ==> reply.store == store
    ensures Rejection(form).Some? ==> reply == Reply(Rejection(form).value, store)
    ensures Rejection(form).None? && Inspect(env, form.buffer).None? ==> reply == Reply(BadDimensions, store)
    ensures (Admissible(env, form) && io.hashLookup.None?
             && HashTaken(store.skins, Fingerprint(env, form.buffer).value)) ==>
      reply == Reply(DuplicateFile, store)
    ensures (Admissible(env, form) && io.hashLookup.None? && io.titleLookup.None?
             && !HashTaken(store.skins, Fingerprint(env, form.buffer).value)
             && TitleTaken(env, store.skins, form.title)) ==>
      reply == Reply(DuplicateTitle, store)
    ensures reply.response == Created(id) <==>
      && Admissible(env, form)
      && io.hashLookup.None? && io.titleLookup.None? && io.file == Written && io.insert.None?
      && !HashTaken(store.skins, Fingerprint(env, form.buffer).value)
      && !TitleTaken(env, store.skins, form.title)
    ensures reply.response == Created(id) ==>
      var record := NewRecord(form, id, now, Fingerprint(env, form.buffer).value, Inspect(env, form.buffer).value);
      reply.store == Store(store.accounts, store.skins + [record], store.files[id := form.buffer])
    ensures reply.response != Created(id) ==> reply.store.skins == store.skins
    ensures (Rejection(form).None? && Inspect(env, form.buffer).Some?
             && Fingerprint(env, form.buffer).None?) ==>
      reply.response.Panic? && reply.store == store
    ensures Admissible(env, form) && io.hashLookup.Some? ==>
      reply == Reply(ServerError(io.hashLookup.value), store)
    ensures (Admissible(env, form) && io.hashLookup.None?
             && !HashTaken(store.skins, Fingerprint(env, form.buffer).value)
             && io.titleLookup.Some?) ==>
      reply == Reply(ServerError(io.titleLookup.value), store)
    ensures (Admissible(env, form) && io.hashLookup.None? && io.titleLookup.None?
             && !HashTaken(store.skins, Fingerprint(env, form.buffer).value)
             && !TitleTaken(env, store.skins, form.title)) ==>
      reply == Persist(store, NewRecord(form, id, now, Fingerprint(env, form.buffer).value,
                                        Inspect(env, form.buffer).value), form.buffer, io)
  {
    match Rejection(form)
    case Some(response) => Reply(response, store)
    case None =>
      match Inspect(env, form.buffer)
      case None => Reply(BadDimensions, store)
      case Some(meta) =>
        match Fingerprint(env, form.buffer)
        case None => Reply(Panic("fingerprint slice starts before the ciphertext"), store)
        case Some(hash) =>
          if io.hashLookup.Some? then Reply(ServerError(io.hashLookup.value), store)
          else if FindSkin(env, store.skins, ByHash(hash)).Some? then Reply(DuplicateFile, store)
          else if io.titleLookup.Some? then Reply(ServerError(io.titleLookup.value), store)
          else if FindSkin(env, store.skins, ByTitle(form.title)).Some? then Reply(DuplicateTitle, store)
          else Persist(store, NewRecord(form, id, now, hash, meta), form.buffer, io)
  }

  /** The `x-session` header names an account's current session and the
      lookup succeeds. */
  predicate Authenticated(store: Store, header: Option<Text>, io: UploadIo) {
    header.Some? && io.sessionLookup.None? && exists a :: a in store.accounts && a.session == header
  }

  /** The whole handler: authenticate, collect, then ingest.  The account
      the session resolves to is not used further. */
  function UploadSkin(env: Env, store: Store, header: Option<Text>, parts: seq<Part>, id: Text, now: int, io: UploadIo): (reply: Reply)
    ensures reply.store.accounts == store.accounts
    ensures reply.response.Panic? ==> reply.store == store
    ensures !Authenticated(store, header, io) && (header.None? || io.sessionLookup.None?) ==>
      reply == Reply(Unauthenticated, store)
    ensures header.Some? && io.sessionLookup.Some? ==> reply == Reply(ServerError(io.sessionLookup.value), store)
    ensures Authenticated(store, header, io) && (exists i :: 0 <= i < |Received(parts)| && FieldPanics(env, Received(parts)[i])) ==>
      reply.response.Panic? && reply.store == store
    ensures Authenticated(store, header, io) && Collect(env, Received(parts)).Some? ==>
      reply == Ingest(env, store, Collect(env, Received(parts)).value, id, now, io)
    ensures reply.response.Http? && reply.response.body.Envelope? && reply.response.body.success ==>
      && Authenticated(store, header, io)
      && exists form :: Collect(env, Received(parts)) == Some(form) && reply == Ingest(env, store, form, id, now, io)
    ensures reply.store.skins == store.skins || reply.response == Created(id)
  {
    match header
    case None => Reply(Unauthenticated, store)
    case Some(token) =>
      if io.sessionLookup.Some? then Reply(ServerError(io.sessionLookup.value), store)
      else if SessionOwner(env, store, token).None? then Reply(Unauthenticated, store)
      else
        match Collect(env, Received(parts))
        case None => Reply(Panic("unwrap on a multipart chunk"), store)
        case Some(form) => Ingest(env, store, form, id, now, io)
  }

  /** Uploads keep skin ids, fingerprints and case-folded titles unique,
      given a fresh id. */
  lemma IngestKeepsSkinsUnique(env: Env, store: Store, form: Form, id: Text, now: int, io: UploadIo)
    requires SkinsUnique(env, store.skins)
    requires forall s :: s in store.skins ==> s.id != id
    ensures SkinsUnique(env, Ingest(env, store, form, id, now, io).store.skins)
  {
    var reply := Ingest(env, store, form, id, now, io);
    if reply.response == Created(id) {
      var record := NewRecord(form, id, now, Fingerprint(env, form.buffer).value, Inspect(env, form.buffer).value);
      var skins' := store.skins + [record];
      assert reply.store.skins == skins';
      forall i, j | 0 <= i < j < |skins'|
        ensures skins'[i].id != skins'[j].id && skins'[i].hash != skins'[j].hash
        ensures !SameIgnoringCase(env, skins'[i].title, skins'[j].title)
      {
        if j == |store.skins| {
          assert skins'[i] in store.skins;
        }
      }
    }
  }

  /** Two uploads whose bytes have the same lossy UTF-8 decoding get the
      same fingerprint, so once the first is stored the second is refused as
      a duplicate even when the images differ. */
  lemma LossyTwinRejected(env: Env, store: Store, first: Form, second: Form,
                          id: Text, now: int, io: UploadIo, id2: Text, now2: int, io2: UploadIo)
    requires env.lossy(first.buffer) == env.lossy(second.buffer)
    requires Ingest(env, store, first, id, now, io).response == Created(id)
    requires Admissible(env, second)
    requires io2.hashLookup.None?
    ensures var after := Ingest(env, store, first, id, now, io).store;
      Ingest(env, after, second, id2, now2, io2) == Reply(DuplicateFile, after)
  {
    var after := Ingest(env, store, first, id, now, io).store;
    var hash := Fingerprint(env, first.buffer).value;
    assert Fingerprint(env, second.buffer).value == hash;
    var record := NewRecord(first, id, now, hash, Inspect(env, first.buffer).value);
    assert after.skins[|after.skins| - 1] == record;
    assert HashTaken(after.skins, hash);
  }

  /** Re-submitting the bytes of a stored upload is refused as a duplicate. */
  lemma ResubmissionRejected(env: Env, store: Store, form: Form,
                             id: Text, now: int, io: UploadIo, id2: Text, now2: int, io2: UploadIo)
    requires Ingest(env, store, form, id, now, io).response == Created(id)
    requires io2.hashLookup.None?
    ensures var after := Ingest(env, store, form, id, now, io).store;
      Ingest(env, after, form, id2, now2, io2) == Reply(DuplicateFile, after)
  {
    LossyTwinRejected(env, store, form, form, id, now, io, id2, now2, io2);
  }
}
