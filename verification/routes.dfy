/**
 * The request handlers of the API as pure transitions from a server state (the store and the
 * set of filenames present in the upload directory) to a response and a new server state.
 * The authenticated requester id is a parameter; the session middleware is not modelled.
 */
module Routes {
  import opened Common
  import opened Strings
  import opened Schema
  import opened Storage
  import opened Captioner

  /** The upload size limit: 10 MiB. */
  const MaxFileSize: nat := 10 * 1024 * 1024

  /**
   * The status an error raised inside the upload middleware ends with. Such an error leaves the
   * route through Express's error handling, which maps an error without its own status to 500.
   */
  const MiddlewareErrorStatus: int := 500

  /** A file part of the multipart body, as the upload middleware sees it. */
  datatype FilePart = FilePart(mimetype: string, originalname: string, size: nat)

  datatype Body =
    | ImageJson(image: Image)
    | ImageListJson(images: seq<Image>)
    | UserJson(user: User)
    | Message(text: string)
    | Undefined   // `res.json(undefined)`

  datatype Response = Response(status: int, body: Body)

  datatype Server = Server(store: Store, disk: set<string>)

  /** Why the upload middleware refused a file part. */
  datatype Rejection = NotAnImage | FileTooLarge

  /** The middleware's `fileFilter`: only parts whose MIME type starts with `image/` pass. */
  predicate FileFilter(mimetype: string)
    ensures FileFilter(mimetype) <==> |mimetype| >= 6 && mimetype == "image/" + mimetype[6..]
  {
    assert |mimetype| >= 6 ==> mimetype[..6] + mimetype[6..] == mimetype;
    StartsWith(mimetype, "image/")
  }

  /** The message of the error the middleware raises: the filter's own, or the size limit's. */
  function RejectionMessage(why: Rejection): (m: string)
    ensures why == NotAnImage <==> m == "Only image files are allowed"
    ensures why == FileTooLarge <==> m == "File too large"
  {
    match why
    case NotAnImage => "Only image files are allowed"
    case FileTooLarge => "File too large"
  }

  /**
   * The upload middleware's verdict on one part: the filter runs when the part starts, the size
   * limit while it streams, so a non-image is refused as such whatever its size.
   */
  function CheckUpload(f: FilePart): (r: Option<Rejection>)
    ensures r.None? <==> FileFilter(f.mimetype) && f.size <= MaxFileSize
    ensures r == Some(FileTooLarge) ==> FileFilter(f.mimetype)
    ensures !FileFilter(f.mimetype) ==> r == Some(NotAnImage)
  {
    if !FileFilter(f.mimetype) then Some(NotAnImage)
    else if f.size > MaxFileSize then Some(FileTooLarge)
    else None
  }

  /** The values the environment supplies to one upload. */
  datatype UploadEnv = UploadEnv(
    storedName: string,  // the random name the middleware stores the file under
    newId: ImageId,      // the id the database generates for the row
    readFault: bool,     // reading the stored file back throws
    choice: nat)         // the mock captioner's random draw

  /** The row the upload route inserts for an accepted part: no captions yet. */
  function UploadRecord(requester: UserId, f: FilePart, storedName: string): (d: InsertImage)
    ensures d.userId == requester && d.filename == storedName
    ensures d.originalName == f.originalname && d.mimeType == f.mimetype
    ensures d.imageUrl == "/uploads/" + storedName
    ensures d.fileSize == NatToString(f.size) && ParseDigits(d.fileSize) == f.size
    ensures d.captionEnglish.None? && d.captionTelugu.None? && d.captionHindi.None?
  {
    NatToStringRoundTrip(f.size);
    InsertImage(requester, storedName, f.originalname, f.mimetype, NatToString(f.size),
                "/uploads/" + storedName, None, None, None)
  }

  /**
   * `POST /api/upload-image`: store the file, insert the row with null captions, read the file
   * back, caption it, write the captions and answer with the updated row. The row is inserted
   * before captioning and nothing is rolled back, so a failure after the insert leaves a
   * caption-less row and a stored file behind.
   */
  function HandleUpload(srv: Server, requester: UserId, file: Option<FilePart>, env: UploadEnv): (r: (Response, Server))
    requires env.choice < |MockCaptions|
    ensures file.None? ==> r == (Response(400, Message("No image file provided")), srv)
    ensures file.Some? && CheckUpload(file.value).Some? ==>
      && r.0 == Response(MiddlewareErrorStatus, Message(RejectionMessage(CheckUpload(file.value).value)))
      && r.1 == srv
    ensures file.Some? && CheckUpload(file.value).None? ==> r.1.disk == srv.disk + {env.storedName}
    ensures file.Some? && CheckUpload(file.value).None?
            && CreateImage(srv.store, env.newId, UploadRecord(requester, file.value, env.storedName)).Err? ==>
      r == (Response(500, Message("Failed to upload image")), Server(srv.store, srv.disk + {env.storedName}))
    ensures r.0.status == 200 || r.0.status == 400 || r.0.status == 500
    ensures r.0.status != 200 ==> r.0.body.Message?
    ensures r.1.store.users == srv.store.users
  {
    match file
    case None => (Response(400, Message("No image file provided")), srv)
    case Some(f) =>
      if CheckUpload(f).Some? then (Response(MiddlewareErrorStatus, Message(RejectionMessage(CheckUpload(f).value))), srv)
      else
        var disk := srv.disk + {env.storedName};
        match CreateImage(srv.store, env.newId, UploadRecord(requester, f, env.storedName))
        case Err(_) => (Response(500, Message("Failed to upload image")), Server(srv.store, disk))
        case Ok((store1, image)) =>
          if env.readFault then (Response(500, Message("Failed to upload image")), Server(store1, disk))
          else
            var captions := GenerateImageCaptions(env.choice);
            var (store2, updated) := UpdateImageCaptions(store1, image.id, captions);
            match updated
            case Some(img) => (Response(200, ImageJson(img)), Server(store2, disk))
            case None => (Response(200, Undefined), Server(store2, disk))
  }

  /** An upload succeeds exactly when the part is accepted, the insert succeeds and the file reads back. */
  lemma UploadSucceedsIff(srv: Server, requester: UserId, file: Option<FilePart>, env: UploadEnv)
    requires env.choice < |MockCaptions|
    ensures HandleUpload(srv, requester, file, env).0.status == 200 <==>
      && file.Some? && CheckUpload(file.value).None?
      && CreateImage(srv.store, env.newId, UploadRecord(requester, file.value, env.storedName)).Ok?
      && !env.readFault
  {
  }

  /** The row a successful upload answers with: the inserted row with the drawn captions. */
  function UploadedRow(srv: Server, requester: UserId, f: FilePart, env: UploadEnv): Image
    requires env.choice < |MockCaptions|
  {
    WithCaptions(FromInsert(UploadRecord(requester, f, env.storedName), env.newId, srv.store.clock),
                 GenerateImageCaptions(env.choice))
  }

  /** A successful upload answers 200 with the captioned row, which is the one row it adds. */
  lemma UploadAnswersRow(srv: Server, requester: UserId, f: FilePart, env: UploadEnv)
    requires env.choice < |MockCaptions|
    requires CheckUpload(f).None? && !env.readFault
    requires CreateImage(srv.store, env.newId, UploadRecord(requester, f, env.storedName)).Ok?
    ensures var img := UploadedRow(srv, requester, f, env);
      var (resp, srv') := HandleUpload(srv, requester, Some(f), env);
      && resp == Response(200, ImageJson(img))
      && srv'.store.images == srv.store.images + [img]
      && srv'.disk == srv.disk + {env.storedName}
  {
    var data := UploadRecord(requester, f, env.storedName);
    var (store1, image) := CreateImage(srv.store, env.newId, data).value;
    UpdateFreshRow(store1, srv.store.images, image, GenerateImageCaptions(env.choice));
  }

  /**
   * A successful upload answers with a row owned by the requester, pointing at the stored file,
   * carrying one of the mock caption triples, and that row is the only one added to the store.
   */
  lemma UploadSuccess(srv: Server, requester: UserId, f: FilePart, env: UploadEnv)
    requires env.choice < |MockCaptions|
    requires CheckUpload(f).None? && !env.readFault
    requires CreateImage(srv.store, env.newId, UploadRecord(requester, f, env.storedName)).Ok?
    ensures var (resp, srv') := HandleUpload(srv, requester, Some(f), env);
      && resp.status == 200
      && resp.body.ImageJson?
      && var img := resp.body.image;
      && img.id == env.newId
      && img.userId == requester
      && img.filename == env.storedName
      && img.originalName == f.originalname
      && img.mimeType == f.mimetype
      && img.imageUrl == "/uploads/" + env.storedName
      && img.fileSize == NatToString(f.size)
      && img.createdAt == srv.store.clock
      && img.captionEnglish.Some? && img.captionTelugu.Some? && img.captionHindi.Some?
      && Captions(img.captionEnglish.value, img.captionTelugu.value, img.captionHindi.value) in MockCaptions
      && img.captionEnglish.value != [] && img.captionTelugu.value != [] && img.captionHindi.value != []
      && srv'.store.images == srv.store.images + [img]
      && srv'.disk == srv.disk + {env.storedName}
  {
    UploadAnswersRow(srv, requester, f, env);
    var img := UploadedRow(srv, requester, f, env);
    var c := GenerateImageCaptions(env.choice);
    assert Captions(img.captionEnglish.value, img.captionTelugu.value, img.captionHindi.value) == c;
  }

  /** `Find` on a row appended after rows that lack its id returns that row. */
  lemma {:induction false} FindAppendFresh(pre: seq<Image>, w: Image)
    requires Find(pre, w.id).None?
    ensures Find(pre + [w], w.id) == Some(w)
  {
    if |pre| > 0 {
      assert (pre + [w])[1..] == pre[1..] + [w];
      FindAppendFresh(pre[1..], w);
    } else {
      assert pre + [w] == [w];
    }
  }

  /** Captioning the row just inserted updates that row alone and returns it. */
  lemma UpdateFreshRow(s1: Store, pre: seq<Image>, img: Image, c: Captions)
    requires s1.images == pre + [img]
    requires Find(pre, img.id).None?
    ensures UpdateImageCaptions(s1, img.id, c)
         == (s1.(images := pre + [WithCaptions(img, c)]), Some(WithCaptions(img, c)))
  {
    var w := WithCaptions(img, c);
    var rows := SetCaptions(s1.images, img.id, c);
    assert rows == pre + [w];
    FindAppendFresh(pre, w);
  }

  /** A part the middleware refuses creates no row and stores no file. */
  lemma UploadRejectedChangesNothing(srv: Server, requester: UserId, f: FilePart, env: UploadEnv)
    requires env.choice < |MockCaptions|
    requires !FileFilter(f.mimetype) || f.size > MaxFileSize
    ensures HandleUpload(srv, requester, Some(f), env).1 == srv
    ensures HandleUpload(srv, requester, Some(f), env).0.status != 200
  {
  }

  /**
   * When reading the stored file fails after the insert, the answer is 500 and the new row stays
   * in the store with all three captions null: there is no rollback.
   */
  lemma UploadFaultLeavesBareRow(srv: Server, requester: UserId, f: FilePart, env: UploadEnv)
    requires env.choice < |MockCaptions|
    requires CheckUpload(f).None? && env.readFault
    requires CreateImage(srv.store, env.newId, UploadRecord(requester, f, env.storedName)).Ok?
    ensures var (resp, srv') := HandleUpload(srv, requester, Some(f), env);
      && resp.status == 500
      && |srv'.store.images| == |srv.store.images| + 1
      && var row := srv'.store.images[|srv.store.images|];
      && row.id == env.newId && row.userId == requester
      && row.captionEnglish.None? && row.captionTelugu.None? && row.captionHindi.None?
  {
  }

  /** Every upload outcome keeps the schema's constraints. */
  lemma UploadPreservesValid(srv: Server, requester: UserId, file: Option<FilePart>, env: UploadEnv)
    requires env.choice < |MockCaptions|
    requires Valid(srv.store)
    ensures Valid(HandleUpload(srv, requester, file, env).1.store)
  {
    if file.Some? && CheckUpload(file.value).None? {
      var data := UploadRecord(requester, file.value, env.storedName);
      var c := CreateImage(srv.store, env.newId, data);
      if c.Ok? {
        CreateImagePreservesValid(srv.store, env.newId, data);
        UpdateImageCaptionsPreservesValid(c.value.0, c.value.1.id, GenerateImageCaptions(env.choice));
      }
    }
  }

  /** Every stored row's captions are all set or all null. */
  ghost predicate CaptionsConsistent(s: Store)
  {
    forall i :: 0 <= i < |s.images| ==> CaptionsAllOrNone(s.images[i])
  }

  /** Appending a row whose captions are all set or all null keeps the store consistent. */
  lemma ConsistentAppend(s: Store, s': Store, last: Image)
    requires CaptionsConsistent(s) && CaptionsAllOrNone(last)
    requires s'.images == s.images + [last]
    ensures CaptionsConsistent(s')
  {
  }

  /** Uploads never leave a row with some captions set and others null. */
  lemma UploadKeepsCaptionsConsistent(srv: Server, requester: UserId, file: Option<FilePart>, env: UploadEnv)
    requires env.choice < |MockCaptions|
    requires CaptionsConsistent(srv.store)
    ensures CaptionsConsistent(HandleUpload(srv, requester, file, env).1.store)
  {
    if file.Some? && CheckUpload(file.value).None? {
      var data := UploadRecord(requester, file.value, env.storedName);
      var c := CreateImage(srv.store, env.newId, data);
      if c.Ok? {
        var (s1, img) := c.value;
        var after := HandleUpload(srv, requester, file, env).1.store.images;
        var last := if env.readFault then img else WithCaptions(img, GenerateImageCaptions(env.choice));
        if !env.readFault {
          UpdateFreshRow(s1, srv.store.images, img, GenerateImageCaptions(env.choice));
        }
        assert after == srv.store.images + [last];
        ConsistentAppend(srv.store, HandleUpload(srv, requester, file, env).1.store, last);
      }
    }
  }

  /** `GET /api/images`: the requester's images, newest first. */
  function HandleListImages(srv: Server, requester: UserId): (r: Response)
    ensures r.status == 200 && r.body.ImageListJson?
    ensures r.body.images == GetImagesByUserId(srv.store, requester)
    ensures forall x :: x in r.body.images <==> x in srv.store.images && x.userId == requester
    ensures Valid(srv.store) ==>
      forall i, j :: 0 <= i < j < |r.body.images| ==> r.body.images[i].createdAt > r.body.images[j].createdAt
  {
    var mine := GetImagesByUserId(srv.store, requester);
    assert Valid(srv.store) ==> forall i, j :: 0 <= i < j < |mine| ==> mine[i].createdAt > mine[j].createdAt by {
      if Valid(srv.store) {
        GetImagesByUserIdNewestFirst(srv.store, requester);
      }
    }
    Response(200, ImageListJson(GetImagesByUserId(srv.store, requester)))
  }

  /** `GET /api/auth/user`: the requester's user row, or `undefined` when none is stored. */
  function HandleAuthUser(srv: Server, requester: UserId): (r: Response)
    ensures r.status == 200
    ensures r.body.UserJson? <==> requester in srv.store.users
    ensures r.body.UserJson? ==> r.body.user == srv.store.users[requester]
    ensures !r.body.UserJson? ==> r.body == Undefined
  {
    match GetUser(srv.store, requester)
    case Some(u) => Response(200, UserJson(u))
    case None => Response(200, Undefined)
  }

  /** `GET /api/images/:id`: 404 when absent, then 403 when owned by someone else, else the row. */
  function HandleGetImage(srv: Server, requester: UserId, id: ImageId): (r: Response)
    ensures r.status == 404 <==> GetImageById(srv.store, id).None?
    ensures r.status == 403 <==> GetImageById(srv.store, id).Some? && GetImageById(srv.store, id).value.userId != requester
    ensures r.status == 200 <==> GetImageById(srv.store, id).Some? && GetImageById(srv.store, id).value.userId == requester
    ensures r.status == 200 ==> r.body.ImageJson? && r.body.image.userId == requester && r.body.image.id == id
                                && r.body.image in srv.store.images
  {
    match GetImageById(srv.store, id)
    case None => Response(404, Message("Image not found"))
    case Some(image) =>
      if image.userId != requester then Response(403, Message("Access denied"))
      else Response(200, ImageJson(image))
  }

  /**
   * `DELETE /api/images/:id`: 404, then 403, before any effect; the owner's delete removes the
   * stored file (if present) and then the row, answering 200 only when a row was deleted.
   */
  function HandleDeleteImage(srv: Server, requester: UserId, id: ImageId): (r: (Response, Server))
    ensures var found := GetImageById(srv.store, id);
      && (r.0.status == 404 <==> found.None?)
      && (r.0.status == 403 <==> found.Some? && found.value.userId != requester)
      && (r.0.status == 404 || r.0.status == 403 ==> r.1 == srv)
      && (found.Some? && found.value.userId == requester ==>
            && r.1.disk == srv.disk - {found.value.filename}
            && r.1.store == DeleteImage(srv.store, id).0
            && r.0.status == 200)
  {
    match GetImageById(srv.store, id)
    case None => (Response(404, Message("Image not found")), srv)
    case Some(image) =>
      if image.userId != requester then (Response(403, Message("Access denied")), srv)
      else
        var disk := srv.disk - {image.filename};
        var (store, deleted) := DeleteImage(srv.store, id);
        if deleted then (Response(200, Message("Image deleted successfully")), Server(store, disk))
        else (Response(500, Message("Failed to delete image")), Server(store, disk))
  }

  /** After the owner deletes an image, listing no longer shows it and its file is gone. */
  lemma DeleteThenList(srv: Server, requester: UserId, id: ImageId)
    requires GetImageById(srv.store, id).Some? && GetImageById(srv.store, id).value.userId == requester
    ensures var (resp, srv') := HandleDeleteImage(srv, requester, id);
      && resp.status == 200
      && GetImageById(srv.store, id).value.filename !in srv'.disk
      && forall x :: x in HandleListImages(srv', requester).body.images ==> x.id != id
  {
  }

  /** Deleting one's own image twice: the second request answers 404 and changes nothing. */
  lemma DeleteTwice(srv: Server, requester: UserId, id: ImageId)
    requires GetImageById(srv.store, id).Some? && GetImageById(srv.store, id).value.userId == requester
    ensures var srv1 := HandleDeleteImage(srv, requester, id).1;
      HandleDeleteImage(srv1, requester, id) == (Response(404, Message("Image not found")), srv1)
  {
  }

  /** The delete route keeps the schema's constraints. */
  lemma DeletePreservesValid(srv: Server, requester: UserId, id: ImageId)
    requires Valid(srv.store)
    ensures Valid(HandleDeleteImage(srv, requester, id).1.store)
  {
    DeleteImagePreservesValid(srv.store, id);
  }

  /** No route hands out or removes an image the requester does not own. */
  lemma OwnershipIsolation(srv: Server, requester: UserId, id: ImageId)
    requires Valid(srv.store)
    ensures var r := HandleGetImage(srv, requester, id);
      r.body.ImageJson? ==> r.body.image.userId == requester
    ensures forall x :: x in HandleListImages(srv, requester).body.images ==> x.userId == requester
    ensures var srv' := HandleDeleteImage(srv, requester, id).1;
      forall x :: x in srv.store.images && x.userId != requester ==> x in srv'.store.images
  {
    forall x | x in srv.store.images && x.userId != requester && x.id == id
      ensures HandleDeleteImage(srv, requester, id).1 == srv
    {
      var i :| 0 <= i < |srv.store.images| && srv.store.images[i] == x;
      FindUnique(srv.store.images, id, i);
    }
  }
}
