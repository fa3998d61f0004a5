/**
 * The image upload endpoints: the content-type check, the extension taken from the file
 * name, the storage path built from the user id, and the upload into a storage bucket
 * (without overwriting for camera images, with overwriting for avatars).
 */
module Upload {
  import opened Wrappers
  import opened Http
  import opened Text

  /** The parts of an `UploadFile` the handlers read; the name and type may be missing. */
  datatype UploadFile = UploadFile(filename: Option<string>, contentType: Option<string>, content: seq<bv8>)

  /** A stored object: its bytes and the content type it was uploaded with. */
  datatype StoredObject = StoredObject(content: seq<bv8>, contentType: string)

  /** A storage bucket: objects by path. */
  type Bucket = map<string, StoredObject>

  /** The answer `{"url": ..., "path": ...}`. */
  datatype Reply = Reply(url: string, path: string)

  /** `file.content_type.startswith("image/")`; a missing type fails the check. */
  predicate IsImage(contentType: Option<string>) {
    contentType.Some? && StartsWith(contentType.value, "image/")
  }

  /**
   * `file.filename.split(".")[-1]`: the text after the last dot, or the whole name when it
   * has no dot.
   */
  function Extension(filename: string): (ext: string)
    ensures '.' !in ext
    ensures |ext| <= |filename| && filename[|filename| - |ext|..] == ext
    ensures '.' !in filename ==> ext == filename
    ensures '.' in filename ==> filename[|filename| - |ext| - 1] == '.'
  {
    AfterLast(filename, '.')
  }

  /** `f"{user_id}"` for the optional query parameter: a missing id renders as `None`. */
  function UserText(userId: Option<string>): (r: string)
    ensures userId.Some? ==> r == userId.value
    ensures userId.None? ==> r == "None"
  {
    if userId.Some? then userId.value else "None"
  }

  /** The camera image path `{user_id}/{uuid}.{ext}`. */
  function ImagePath(userId: Option<string>, uuid: string, ext: string): string {
    UserText(userId) + "/" + uuid + "." + ext
  }

  /** The avatar path `{user_id}/avatar.{ext}`. */
  function AvatarPath(userId: Option<string>, ext: string): string {
    UserText(userId) + "/avatar." + ext
  }

  /**
   * `upload_camera_image`. `uuid` is the fresh `uuid4()` and `publicUrl` the bucket's
   * public address of a path. A non-image or a file without a name fails with 400; the
   * upload, which does not overwrite, fails when the path is taken, and that failure is
   * also answered with 400. Otherwise the object is stored under the path and the reply
   * names it.
   */
  function UploadCameraImage(bucket: Bucket, file: UploadFile, userId: Option<string>, uuid: string,
                             publicUrl: string -> string): (r: (Outcome<Reply>, Bucket))
    ensures r.0.Fail? ==> r.0.status == BadRequest && r.1 == bucket
  {
    if !IsImage(file.contentType) || file.filename.None? then (Rewrap(Fail(BadRequest), BadRequest), bucket)
    else
      var path := ImagePath(userId, uuid, Extension(file.filename.value));
      if path in bucket then (Rewrap(Fail(BadRequest), BadRequest), bucket)
      else (Ok(Reply(publicUrl(path), path)), bucket[path := StoredObject(file.content, file.contentType.value)])
  }

  /**
   * `upload_avatar`: as the camera image upload, at the fixed avatar path of the user, with
   * `upsert`, so an earlier avatar under the same path is replaced.
   */
  function UploadAvatar(bucket: Bucket, file: UploadFile, userId: Option<string>,
                        publicUrl: string -> string): (r: (Outcome<Reply>, Bucket))
    ensures r.0.Fail? ==> r.0.status == BadRequest && r.1 == bucket
  {
    if !IsImage(file.contentType) || file.filename.None? then (Rewrap(Fail(BadRequest), BadRequest), bucket)
    else
      var path := AvatarPath(userId, Extension(file.filename.value));
      (Ok(Reply(publicUrl(path), path)), bucket[path := StoredObject(file.content, file.contentType.value)])
  }

  /** Both uploads refuse anything that is not an image with 400 and store nothing. */
  lemma NonImageRejected(bucket: Bucket, file: UploadFile, userId: Option<string>, uuid: string,
                         publicUrl: string -> string)
    requires !IsImage(file.contentType)
    ensures UploadCameraImage(bucket, file, userId, uuid, publicUrl) == (Fail(BadRequest), bucket)
    ensures UploadAvatar(bucket, file, userId, publicUrl) == (Fail(BadRequest), bucket)
  {
  }

  /**
   * A successful camera image upload stores the file under the path it answers, a path that
   * was free, with the file's type, and changes nothing else; the url is that path's.
   */
  lemma CameraImageStored(bucket: Bucket, file: UploadFile, userId: Option<string>, uuid: string,
                          publicUrl: string -> string)
    requires IsImage(file.contentType) && file.filename.Some?
    ensures var (r, after) := UploadCameraImage(bucket, file, userId, uuid, publicUrl);
      var path := ImagePath(userId, uuid, Extension(file.filename.value));
      && (r.Ok? <==> path !in bucket)
      && (r.Ok? ==> r.value == Reply(publicUrl(path), path)
                    && after == bucket[path := StoredObject(file.content, file.contentType.value)]
                    && after.Keys == bucket.Keys + {path})
  {
  }

  /**
   * Uploading an avatar twice with the same user and extension keeps one object, the
   * second file, and answers the same path both times.
   */
  lemma AvatarReuploadOverwrites(bucket: Bucket, first: UploadFile, second: UploadFile, userId: Option<string>,
                                 publicUrl: string -> string)
    requires IsImage(first.contentType) && first.filename.Some?
    requires IsImage(second.contentType) && second.filename.Some?
    requires Extension(first.filename.value) == Extension(second.filename.value)
    ensures var (r1, b1) := UploadAvatar(bucket, first, userId, publicUrl);
      var (r2, b2) := UploadAvatar(b1, second, userId, publicUrl);
      var path := AvatarPath(userId, Extension(first.filename.value));
      && r1.Ok? && r2.Ok? && r1.value.path == r2.value.path == path
      && b2.Keys == bucket.Keys + {path}
      && b2 == bucket[path := StoredObject(second.content, second.contentType.value)]
  {
  }

  /** For one user and extension, two camera image paths are equal exactly when their uuids are. */
  lemma ImagePathsDistinct(userId: Option<string>, a: string, b: string, ext: string)
    ensures ImagePath(userId, a, ext) == ImagePath(userId, b, ext) <==> a == b
  {
    var u := UserText(userId) + "/";
    var pa, pb := ImagePath(userId, a, ext), ImagePath(userId, b, ext);
    if pa == pb {
      assert pa == u + (a + "." + ext) && pb == u + (b + "." + ext);
      assert pa[|u|..] == a + "." + ext && pb[|u|..] == b + "." + ext;
      assert (a + "." + ext)[..|a|] == a && (b + "." + ext)[..|b|] == b;
    }
  }

  /**
   * The folder of an uploaded path is the user's: when the user text holds no `/`, the text
   * before the first `/` of either path is the user text.
   */
  lemma PathFolderIsUser(userId: Option<string>, uuid: string, ext: string)
    requires '/' !in UserText(userId)
    ensures BeforeFirst(ImagePath(userId, uuid, ext), '/') == UserText(userId)
    ensures BeforeFirst(AvatarPath(userId, ext), '/') == UserText(userId)
  {
    FolderOf(UserText(userId), uuid + "." + ext);
    assert ImagePath(userId, uuid, ext) == UserText(userId) + "/" + (uuid + "." + ext);
    FolderOf(UserText(userId), "avatar." + ext);
    assert AvatarPath(userId, ext) == UserText(userId) + "/" + ("avatar." + ext);
  }

  /** The text before the first `/` of `u + "/" + rest` is `u` when `u` holds no `/`. */
  lemma FolderOf(u: string, rest: string)
    requires '/' !in u
    ensures BeforeFirst(u + "/" + rest, '/') == u
  {
    var s := u + "/" + rest;
    var r := BeforeFirst(s, '/');
    assert s[|u|] == '/';
    assert forall j :: 0 <= j < |r| ==> s[j] == r[j];
    assert forall j :: 0 <= j < |u| ==> s[j] == u[j];
    assert |r| == |u|;
  }
}
