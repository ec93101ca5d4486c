/**
 * The two persisted record shapes, `users` and `images`, and the insert shapes the
 * storage layer accepts. Timestamps are readings of the store's logical clock.
 */
module Schema {
  import opened Common

  type UserId = string
  type ImageId = string

  /** A row of `users`: `id` is the primary key, `email` is unique when present. */
  datatype User = User(
    id: UserId,
    email: Option<string>,
    firstName: Option<string>,
    lastName: Option<string>,
    profileImageUrl: Option<string>,
    createdAt: nat,
    updatedAt: nat)

  /**
   * A nullable column's key in an insert object: `None` when the key is left out (`undefined`),
   * otherwise the value given, which may itself be null.
   */
  type Field = Option<Option<string>>

  /** A left-out key keeps the value `before`; a given key, null included, writes its value. */
  predicate Applied(f: Field, before: Option<string>, after: Option<string>)
  {
    match f
    case None => after == before
    case Some(v) => after == v
  }

  /** The column value after applying one key of an insert object to `current`. */
  function Resolve(f: Field, current: Option<string>): (r: Option<string>)
    ensures Applied(f, current, r)
  {
    f.GetOr(current)
  }

  /** The identity fields an upsert supplies, each possibly left out; the timestamps come from the store. */
  datatype UpsertUser = UpsertUser(
    id: UserId,
    email: Field,
    firstName: Field,
    lastName: Field,
    profileImageUrl: Field)

  /**
   * A row of `images`. The five file fields are required; the three captions are nullable.
   * `userId` references `users.id` with cascading delete.
   */
  datatype Image = Image(
    id: ImageId,
    userId: UserId,
    filename: string,
    originalName: string,
    mimeType: string,
    fileSize: string,
    imageUrl: string,
    captionEnglish: Option<string>,
    captionTelugu: Option<string>,
    captionHindi: Option<string>,
    createdAt: nat)

  /**
   * The insert schema: every column of `images` except `id` and `createdAt`,
   * which only the store can generate.
   */
  datatype InsertImage = InsertImage(
    userId: UserId,
    filename: string,
    originalName: string,
    mimeType: string,
    fileSize: string,
    imageUrl: string,
    captionEnglish: Option<string>,
    captionTelugu: Option<string>,
    captionHindi: Option<string>)

  /** One caption per language, as the captioning step returns them. */
  datatype Captions = Captions(english: string, telugu: string, hindi: string)

  /** The row an insert produces once the store has chosen its id and creation time. */
  function FromInsert(data: InsertImage, id: ImageId, now: nat): (img: Image)
    ensures img.id == id && img.createdAt == now
    ensures ToInsert(img) == data
  {
    Image(id, data.userId, data.filename, data.originalName, data.mimeType, data.fileSize,
          data.imageUrl, data.captionEnglish, data.captionTelugu, data.captionHindi, now)
  }

  /** The insertable part of a row: the row without its generated columns. */
  function ToInsert(img: Image): InsertImage
  {
    InsertImage(img.userId, img.filename, img.originalName, img.mimeType, img.fileSize,
                img.imageUrl, img.captionEnglish, img.captionTelugu, img.captionHindi)
  }

  /** Splitting a row into its insertable part and its generated columns loses nothing. */
  lemma InsertRoundTrip(img: Image)
    ensures FromInsert(ToInsert(img), img.id, img.createdAt) == img
  {
  }

  /** Either no caption is set yet, or all three are. */
  predicate CaptionsAllOrNone(img: Image)
  {
    (img.captionEnglish.None? && img.captionTelugu.None? && img.captionHindi.None?)
    || (img.captionEnglish.Some? && img.captionTelugu.Some? && img.captionHindi.Some?)
  }

  /** The row with its three captions replaced and every other column kept. */
  function WithCaptions(img: Image, c: Captions): (r: Image)
    ensures r.captionEnglish == Some(c.english)
    ensures r.captionTelugu == Some(c.telugu)
    ensures r.captionHindi == Some(c.hindi)
    ensures ToInsert(r).(captionEnglish := None, captionTelugu := None, captionHindi := None)
         == ToInsert(img).(captionEnglish := None, captionTelugu := None, captionHindi := None)
    ensures r.id == img.id && r.createdAt == img.createdAt
    ensures CaptionsAllOrNone(r)
  {
    img.(captionEnglish := Some(c.english), captionTelugu := Some(c.telugu), captionHindi := Some(c.hindi))
  }
}
