/**
 * `DatabaseStorage` as pure functions over an abstract store.
 *
 * The `users` table is a map keyed by its primary key. The `images` table is a sequence of
 * rows in insertion order; the store's logical clock stamps each row's `createdAt` and only
 * ever moves forward, so insertion order is creation order. Ids the database would generate
 * (`gen_random_uuid()`) are supplied by the caller; a collision is a primary-key violation.
 */
module Storage {
  import opened Common
  import opened Schema

  /** The constraint violations the database raises for the modelled statements. */
  datatype DbError =
    | DuplicateImageId   // images_pkey
    | UnknownOwner       // images_user_id_users_id_fk
    | DuplicateEmail     // users_email_unique

  datatype Store = Store(users: map<UserId, User>, images: seq<Image>, clock: nat)

  /** The store before anything was written. */
  function Empty(): (s: Store)
    ensures Valid(s)
  {
    Store(map[], [], 0)
  }

  // ---------------------------------------------------------------------------
  // Table constraints
  // ---------------------------------------------------------------------------

  /** Every user is stored under its own primary key. */
  ghost predicate UsersKeyed(users: map<UserId, User>)
  {
    forall k :: k in users ==> users[k].id == k
  }

  /** No two users share an email; users without one never clash. */
  ghost predicate EmailsUnique(users: map<UserId, User>)
  {
    forall a, b :: a in users && b in users && a != b && users[a].email.Some? ==> users[a].email != users[b].email
  }

  /** `images.id` is a primary key. */
  ghost predicate IdsUnique(rows: seq<Image>)
  {
    forall i, j :: 0 <= i < j < |rows| ==> rows[i].id != rows[j].id
  }

  /** Rows appear in strictly increasing creation time. */
  ghost predicate Chronological(rows: seq<Image>)
  {
    forall i, j :: 0 <= i < j < |rows| ==> rows[i].createdAt < rows[j].createdAt
  }

  /** Every image references an existing user. */
  ghost predicate Owned(s: Store)
  {
    forall i :: 0 <= i < |s.images| ==> s.images[i].userId in s.users
  }

  /** Every timestamp already handed out is behind the clock. */
  ghost predicate BehindClock(s: Store)
  {
    && (forall i :: 0 <= i < |s.images| ==> s.images[i].createdAt < s.clock)
    && (forall k :: k in s.users ==> s.users[k].createdAt <= s.users[k].updatedAt < s.clock)
  }

  /** The constraints the schema declares, plus the clock discipline. */
  ghost predicate Valid(s: Store)
  {
    && UsersKeyed(s.users)
    && EmailsUnique(s.users)
    && IdsUnique(s.images)
    && Chronological(s.images)
    && Owned(s)
    && BehindClock(s)
  }

  /** Every row took its own tick of the clock, so a valid store holds no more images than ticks. */
  lemma ValidFitsClock(s: Store)
    requires Valid(s)
    ensures |s.images| <= s.clock
  {
    RowsFitClock(s.images, s.clock);
  }

  /** Strictly increasing timestamps below `clock` leave room for at most `clock` rows. */
  lemma {:induction false} RowsFitClock(rows: seq<Image>, clock: nat)
    requires Chronological(rows)
    requires forall i :: 0 <= i < |rows| ==> rows[i].createdAt < clock
    ensures |rows| <= clock
  {
    if |rows| > 0 {
      var init := rows[..|rows| - 1];
      assert forall i :: 0 <= i < |init| ==> init[i] == rows[i];
      RowsFitClock(init, rows[|rows| - 1].createdAt);
    }
  }

  // ---------------------------------------------------------------------------
  // Row helpers
  // ---------------------------------------------------------------------------

  /** The first row with the given id, if any. */
  function Find(rows: seq<Image>, id: ImageId): (r: Option<Image>)
    ensures r.Some? ==> r.value in rows && r.value.id == id
    ensures r.None? <==> forall i :: 0 <= i < |rows| ==> rows[i].id != id
  {
    if |rows| == 0 then None
    else if rows[0].id == id then Some(rows[0])
    else Find(rows[1..], id)
  }

  /** With unique ids, the row `Find` returns is the one row carrying that id. */
  lemma FindUnique(rows: seq<Image>, id: ImageId, i: int)
    requires IdsUnique(rows)
    requires 0 <= i < |rows| && rows[i].id == id
    ensures Find(rows, id) == Some(rows[i])
  {
    if i > 0 && rows[0].id != id {
      FindUnique(rows[1..], id, i - 1);
    }
  }

  /** The rows satisfying `p`, in their original order (a SQL `WHERE`). */
  function Keep(rows: seq<Image>, p: Image -> bool): (r: seq<Image>)
    ensures |r| <= |rows|
    ensures forall x :: x in r <==> x in rows && p(x)
    ensures (forall i :: 0 <= i < |rows| ==> p(rows[i])) <==> r == rows
    ensures |r| == |rows| ==> r == rows
  {
    if |rows| == 0 then []
    else if p(rows[0]) then [rows[0]] + Keep(rows[1..], p)
    else
      var t := Keep(rows[1..], p);
      assert rows[0] !in t ==> t != rows;
      t
  }

  /** Filtering keeps rows unique and in creation order. */
  lemma {:induction false} KeepPreservesOrder(rows: seq<Image>, p: Image -> bool)
    requires IdsUnique(rows) && Chronological(rows)
    ensures IdsUnique(Keep(rows, p)) && Chronological(Keep(rows, p))
  {
    if |rows| > 0 {
      KeepPreservesOrder(rows[1..], p);
      var t := Keep(rows[1..], p);
      forall x | x in t
        ensures x.id != rows[0].id && rows[0].createdAt < x.createdAt
      {
        var j :| 0 <= j < |rows[1..]| && rows[1..][j] == x;
        assert rows[j + 1] == x;
      }
      if p(rows[0]) {
        var r := [rows[0]] + t;
        forall i, j | 0 <= i < j < |r|
          ensures r[i].id != r[j].id && r[i].createdAt < r[j].createdAt
        {
          assert r[j] == t[j - 1];
          if i > 0 {
            assert r[i] == t[i - 1];
          }
        }
      }
    }
  }

  /** The sequence read back to front. */
  function Reverse(rows: seq<Image>): (r: seq<Image>)
    ensures |r| == |rows|
    ensures forall i :: 0 <= i < |rows| ==> r[i] == rows[|rows| - 1 - i]
  {
    if |rows| == 0 then [] else Reverse(rows[1..]) + [rows[0]]
  }

  // ---------------------------------------------------------------------------
  // User operations
  // ---------------------------------------------------------------------------

  /** `getUser`: the user with that id, if stored. */
  function GetUser(s: Store, id: UserId): (r: Option<User>)
    ensures r.Some? <==> id in s.users
    ensures r.Some? ==> r.value == s.users[id]
  {
    if id in s.users then Some(s.users[id]) else None
  }

  /** True when the upsert gives an email that some other user already holds. */
  predicate EmailTaken(s: Store, data: UpsertUser)
  {
    data.email.Some? && data.email.value.Some?
    && exists k :: k in s.users && k != data.id && s.users[k].email == data.email.value
  }

  /**
   * `upsertUser`: insert on a new id, otherwise update that user, and refresh `updatedAt`. Keys
   * the data leaves out take the column default (null) on insert and keep the stored value on
   * update, since an `undefined` key is dropped from both the values and the update set. The
   * unique email constraint rejects an email another user already holds.
   */
  function UpsertUser(s: Store, data: UpsertUser): (r: Result<(Store, User), DbError>)
    ensures r.Err? <==> EmailTaken(s, data)
    ensures r.Err? ==> r.error == DuplicateEmail
    ensures r.Ok? ==> var (s', u) := r.value;
      && u.id == data.id
      && (data.id in s.users ==> var before := s.users[data.id];
            && Applied(data.email, before.email, u.email)
            && Applied(data.firstName, before.firstName, u.firstName)
            && Applied(data.lastName, before.lastName, u.lastName)
            && Applied(data.profileImageUrl, before.profileImageUrl, u.profileImageUrl)
            && u.createdAt == before.createdAt)
      && (data.id !in s.users ==>
            && Applied(data.email, None, u.email)
            && Applied(data.firstName, None, u.firstName)
            && Applied(data.lastName, None, u.lastName)
            && Applied(data.profileImageUrl, None, u.profileImageUrl)
            && u.createdAt == s.clock)
      && s'.users == s.users[data.id := u]
      && s'.images == s.images
      && s'.clock == s.clock + 1
      && u.updatedAt == s.clock
      && |s'.users| <= |s.users| + 1
      && GetUser(s', data.id) == Some(u)
  {
    if EmailTaken(s, data) then Err(DuplicateEmail)
    else
      var before :=
        if data.id in s.users then s.users[data.id]
        else User(data.id, None, None, None, None, s.clock, s.clock);
      var u := User(data.id, Resolve(data.email, before.email), Resolve(data.firstName, before.firstName),
                    Resolve(data.lastName, before.lastName), Resolve(data.profileImageUrl, before.profileImageUrl),
                    before.createdAt, s.clock);
      Ok((s.(users := s.users[data.id := u], clock := s.clock + 1), u))
  }

  lemma UpsertUserPreservesValid(s: Store, data: UpsertUser)
    requires Valid(s)
    ensures UpsertUser(s, data).Ok? ==> Valid(UpsertUser(s, data).value.0)
  {
  }

  /**
   * Deleting a user row cascades to that user's images (the `ON DELETE CASCADE` reference).
   * No request handler deletes users; this is the schema's rule.
   */
  function CascadeDeleteUser(s: Store, id: UserId): (s': Store)
    ensures id !in s'.users && s'.users == s.users - {id}
    ensures forall x :: x in s'.images <==> x in s.images && x.userId != id
    ensures s'.clock == s.clock
    ensures GetUser(s', id).None?
  {
    s.(users := s.users - {id}, images := Keep(s.images, (x: Image) => x.userId != id))
  }

  lemma CascadeDeleteUserPreservesValid(s: Store, id: UserId)
    requires Valid(s)
    ensures Valid(CascadeDeleteUser(s, id))
  {
    KeepPreservesOrder(s.images, (x: Image) => x.userId != id);
    var s' := CascadeDeleteUser(s, id);
    forall i | 0 <= i < |s'.images|
      ensures s'.images[i].userId in s'.users && s'.images[i].createdAt < s'.clock
    {
      assert s'.images[i] in s.images;
    }
  }

  // ---------------------------------------------------------------------------
  // Image operations
  // ---------------------------------------------------------------------------

  /**
   * `createImage`: insert one row with the store-generated `id` and `createdAt`, failing on a
   * primary-key collision or an owner that is not a user.
   */
  function CreateImage(s: Store, id: ImageId, data: InsertImage): (r: Result<(Store, Image), DbError>)
    ensures r.Err? <==> Find(s.images, id).Some? || data.userId !in s.users
    ensures r.Err? && Find(s.images, id).Some? ==> r.error == DuplicateImageId
    ensures r.Ok? ==> var (s', img) := r.value;
      && ToInsert(img) == data
      && img.id == id
      && img.createdAt == s.clock
      && s'.images == s.images + [img]
      && s'.users == s.users
      && s'.clock == s.clock + 1
  {
    if Find(s.images, id).Some? then Err(DuplicateImageId)
    else if data.userId !in s.users then Err(UnknownOwner)
    else
      var img := FromInsert(data, id, s.clock);
      Ok((s.(images := s.images + [img], clock := s.clock + 1), img))
  }

  lemma CreateImagePreservesValid(s: Store, id: ImageId, data: InsertImage)
    requires Valid(s)
    ensures CreateImage(s, id, data).Ok? ==> Valid(CreateImage(s, id, data).value.0)
  {
  }

  /**
   * `getImagesByUserId`: the user's images, newest first. Rows are kept in creation order,
   * so the newest-first listing is the filtered table read backwards.
   */
  function GetImagesByUserId(s: Store, u: UserId): (r: seq<Image>)
    ensures forall x :: x in r <==> x in s.images && x.userId == u
    ensures |r| <= |s.images|
  {
    var mine := Keep(s.images, (x: Image) => x.userId == u);
    var r := Reverse(mine);
    assert forall x :: x in r <==> x in mine by {
      forall x ensures x in r <==> x in mine {
        if x in mine {
          var i :| 0 <= i < |mine| && mine[i] == x;
          assert r[|mine| - 1 - i] == x;
        }
      }
    }
    r
  }

  /** The listing is newest first, without repeats. */
  lemma GetImagesByUserIdNewestFirst(s: Store, u: UserId)
    requires Valid(s)
    ensures var r := GetImagesByUserId(s, u);
      forall i, j :: 0 <= i < j < |r| ==> r[i].createdAt > r[j].createdAt
  {
    KeepPreservesOrder(s.images, (x: Image) => x.userId == u);
  }

  /** `getImageById`: the row with that id, or nothing. */
  function GetImageById(s: Store, id: ImageId): (r: Option<Image>)
    ensures r.Some? ==> r.value in s.images && r.value.id == id
    ensures r.None? <==> forall x :: x in s.images ==> x.id != id
  {
    Find(s.images, id)
  }

  /** The caption update applied to every row whose id matches. */
  function SetCaptions(rows: seq<Image>, id: ImageId, c: Captions): (r: seq<Image>)
    ensures |r| == |rows|
    ensures forall i :: 0 <= i < |rows| && rows[i].id != id ==> r[i] == rows[i]
    ensures forall i :: 0 <= i < |rows| && rows[i].id == id ==> r[i] == WithCaptions(rows[i], c)
  {
    seq(|rows|, i requires 0 <= i < |rows| => if rows[i].id == id then WithCaptions(rows[i], c) else rows[i])
  }

  /**
   * `updateImageCaptions`: set the three caption columns of the row with that id, touching no
   * other column and no other row, and return the updated row (nothing when no row matched).
   */
  function UpdateImageCaptions(s: Store, id: ImageId, c: Captions): (r: (Store, Option<Image>))
    ensures var (s', img) := r;
      && s'.users == s.users && s'.clock == s.clock
      && |s'.images| == |s.images|
      && (forall i :: 0 <= i < |s.images| && s.images[i].id != id ==> s'.images[i] == s.images[i])
      && (forall i :: 0 <= i < |s.images| && s.images[i].id == id ==>
            && s'.images[i].captionEnglish == Some(c.english)
            && s'.images[i].captionTelugu == Some(c.telugu)
            && s'.images[i].captionHindi == Some(c.hindi)
            && s'.images[i].(captionEnglish := None, captionTelugu := None, captionHindi := None)
               == s.images[i].(captionEnglish := None, captionTelugu := None, captionHindi := None))
      && (img.Some? <==> GetImageById(s, id).Some?)
      && (img.Some? ==> img.value in s'.images && img.value.id == id
                        && img.value.captionEnglish == Some(c.english)
                        && img.value.captionTelugu == Some(c.telugu)
                        && img.value.captionHindi == Some(c.hindi))
  {
    var rows := SetCaptions(s.images, id, c);
    FindAfterSetCaptions(s.images, id, c);
    (s.(images := rows), Find(rows, id))
  }

  /** The caption update keeps every id, so the updated row is found exactly when the old one was. */
  lemma FindAfterSetCaptions(rows: seq<Image>, id: ImageId, c: Captions)
    ensures var f := Find(SetCaptions(rows, id, c), id);
      && (f.Some? <==> Find(rows, id).Some?)
      && (f.Some? ==> f.value.captionEnglish == Some(c.english)
                      && f.value.captionTelugu == Some(c.telugu)
                      && f.value.captionHindi == Some(c.hindi))
  {
    var r := SetCaptions(rows, id, c);
    var f := Find(r, id);
    if f.Some? {
      var i :| 0 <= i < |r| && r[i] == f.value;
      assert rows[i].id == id;
    }
    if Find(rows, id).Some? {
      var i :| 0 <= i < |rows| && rows[i] == Find(rows, id).value;
      assert r[i].id == id;
    }
  }

  lemma UpdateImageCaptionsPreservesValid(s: Store, id: ImageId, c: Captions)
    requires Valid(s)
    ensures Valid(UpdateImageCaptions(s, id, c).0)
  {
  }

  /** `deleteImage`: remove the row with that id; report whether one existed (`rowCount > 0`). */
  function DeleteImage(s: Store, id: ImageId): (r: (Store, bool))
    ensures var (s', existed) := r;
      && s'.users == s.users && s'.clock == s.clock
      && (existed <==> GetImageById(s, id).Some?)
      && (forall x :: x in s'.images <==> x in s.images && x.id != id)
      && GetImageById(s', id).None?
      && (!existed ==> s' == s)
  {
    var rows := Keep(s.images, (x: Image) => x.id != id);
    (s.(images := rows), |rows| < |s.images|)
  }

  lemma DeleteImagePreservesValid(s: Store, id: ImageId)
    requires Valid(s)
    ensures Valid(DeleteImage(s, id).0)
  {
    KeepPreservesOrder(s.images, (x: Image) => x.id != id);
    var s' := DeleteImage(s, id).0;
    forall i | 0 <= i < |s'.images|
      ensures s'.images[i].userId in s'.users && s'.images[i].createdAt < s'.clock
    {
      assert s'.images[i] in s.images;
    }
  }

  /** A second delete of the same id changes nothing and reports that no row existed. */
  lemma DeleteImageIdempotent(s: Store, id: ImageId)
    ensures var s1 := DeleteImage(s, id).0;
      DeleteImage(s1, id) == (s1, false)
  {
  }
}
