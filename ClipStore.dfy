/** The request handlers of the clip server (server.js) as methods on an in-memory store: the
    `videos` table as a sequence of rows in insertion order, the uploaded files as a set of
    stored paths. Clocks, random numbers, the privileged-caller verdict and the outcome of the
    database insert and of the file removal are parameters. */
module ClipService {
  import opened Options
  import opened Clips

  /** A reply without payload: `{ success: true, message }` or an error status. */
  datatype Reply = Done | Failed(failure: Failure)

  /** Cutting one row out of a table keeps the ids ascending. */
  lemma CutKeepsAscending(rows: seq<Clip>, k: nat)
    requires IdsAscending(rows) && k < |rows|
    ensures IdsAscending(rows[..k] + rows[k + 1..])
  {
    var r := rows[..k] + rows[k + 1..];
    forall i, j | 0 <= i < j < |r| ensures r[i].id < r[j].id {
      var i', j' := if i < k then i else i + 1, if j < k then j else j + 1;
      assert r[i] == rows[i'] && r[j] == rows[j'];
    }
  }

  class ClipStore {
    var rows: seq<Clip>
    var blobs: set<string>
    var nextId: int
    var uploadDirReady: bool

    /** Ids ascend along the table (so they are unique) and stay below the next id to assign. */
    ghost predicate Valid()
      reads this
    {
      IdsAscending(rows) && forall i :: 0 <= i < |rows| ==> rows[i].id < nextId
    }

    constructor ()
      ensures Valid()
      ensures rows == [] && blobs == {} && !uploadDirReady
    {
      rows := [];
      blobs := {};
      nextId := 1;
      uploadDirReady := false;
    }

    /** `POST /api/videos/upload`. The file filter runs first; an accepted file is written (and its
        directory created) before the insert, and a failed insert leaves the file in place.
        `clockMs` and `random` are `Date.now()` and `Math.round(Math.random() * 1E9)`, `hashRandom1`
        and `hashRandom2` the base-36 digits of two `Math.random()` values, `now` the database's
        `NOW()`, `isoNow` the server's clock for the response, `insertOk` whether a well-formed
        INSERT succeeds (the database may still fail it). An INSERT with a missing title, game or
        duration always fails. */
    method Upload(file: Option<UploadedFile>, form: UploadForm, clockMs: nat, random: nat,
                  hashRandom1: seq<Digit36>, hashRandom2: seq<Digit36>, now: int, isoNow: string,
                  insertOk: bool)
      returns (r: Result<UploadedClip>)
      requires Valid()
      modifies this
      ensures Valid()
      ensures file.None? ==> r == Err(BadRequest) && unchanged(this)
      ensures file.Some? && !FileFilter(file.value) ==> r == Err(FilterRejected) && unchanged(this)
      ensures file.Some? && FileFilter(file.value) ==>
        var path := StoredPath(clockMs, random, file.value.originalName);
        var row := NewClip(old(nextId), form, path, now, VideoHash(hashRandom1, hashRandom2));
        && uploadDirReady
        && blobs == old(blobs) + {path}
        && (row.Ok? ==> forall i :: 0 <= i < |old(rows)| ==> old(rows)[i].id != row.value.id)
        && (row.Ok? && insertOk ==>
              && rows == old(rows) + [row.value] && nextId == old(nextId) + 1
              && r == Ok(UploadResponse(row.value, form, isoNow)))
        && (row.Err? || !insertOk ==> rows == old(rows) && nextId == old(nextId) && r == Err(ServerError))
    {
      if file.None? {
        return Err(BadRequest);
      }
      var f := file.value;
      if !FileFilter(f) {
        return Err(FilterRejected);
      }
      uploadDirReady := true;
      var path := StoredPath(clockMs, random, f.originalName);
      blobs := blobs + {path};
      var hash := VideoHash(hashRandom1, hashRandom2);
      var row := NewClip(nextId, form, path, now, hash);
      if row.Err? || !insertOk {
        return Err(ServerError);
      }
      var clip := row.value;
      rows := rows + [clip];
      nextId := nextId + 1;
      r := Ok(UploadResponse(clip, form, isoNow));
    }

    /** `GET /api/videos/hash/:hash`: the first row with that hash, refused to an unprivileged
        caller when it is private. */
    method GetByHash(hash: string, privileged: bool) returns (r: Result<Clip>)
      ensures r == Err(NotFound) <==> forall j :: 0 <= j < |rows| ==> rows[j].videoHash != hash
      ensures r.Err? ==> r == Err(NotFound) || r == Err(Forbidden)
      ensures r == Err(Forbidden) <==> exists k :: FirstWithHash(rows, hash, k) && rows[k].isPrivate && !privileged
      ensures r.Ok? ==> exists k :: FirstWithHash(rows, hash, k) && r.value == rows[k]
      ensures r.Ok? ==> privileged || !r.value.isPrivate
    {
      match FindByHash(rows, hash)
      case None =>
        r := Err(NotFound);
      case Some(k) =>
        r := if rows[k].isPrivate && !privileged then Err(Forbidden) else Ok(rows[k]);
    }

    /** `PATCH /api/videos/:videoId/privacy`. */
    method SetPrivacy(id: int, isPrivate: bool) returns (r: Reply)
      requires Valid()
      modifies this
      ensures Valid()
      ensures r == Done || r == Failed(NotFound)
      ensures r == Failed(NotFound) <==> forall j :: 0 <= j < |old(rows)| ==> old(rows)[j].id != id
      ensures rows == WithPrivacy(old(rows), id, isPrivate)
      ensures r.Failed? ==> rows == old(rows)
      ensures blobs == old(blobs) && nextId == old(nextId) && uploadDirReady == old(uploadDirReady)
    {
      var found := FindById(rows, id);
      rows := WithPrivacy(rows, id, isPrivate);
      r := if found.None? then Failed(NotFound) else Done;
      if found.None? {
        assert rows == old(rows);
      }
    }

    /** `DELETE /api/videos/:videoId`: the row is deleted first, then its file, if present. A
        failing removal is answered with 500 although the row is already gone. */
    method Delete(id: int, unlinkOk: bool) returns (r: Reply)
      requires Valid()
      modifies this
      ensures Valid()
      ensures nextId == old(nextId) && uploadDirReady == old(uploadDirReady)
      ensures forall j :: 0 <= j < |rows| ==> rows[j].id != id
      ensures FindById(old(rows), id).None? ==>
        r == Failed(NotFound) && rows == old(rows) && blobs == old(blobs)
      ensures FindById(old(rows), id).Some? ==>
        var k := FindById(old(rows), id).value;
        var path := old(rows)[k].filePath;
        && rows == old(rows)[..k] + old(rows)[k + 1..]
        && (path == "" || path !in old(blobs) ==> r == Done && blobs == old(blobs))
        && (path != "" && path in old(blobs) && unlinkOk ==> r == Done && blobs == old(blobs) - {path})
        && (path != "" && path in old(blobs) && !unlinkOk ==> r == Failed(ServerError) && blobs == old(blobs))
    {
      var found := FindById(rows, id);
      if found.None? {
        return Failed(NotFound);
      }
      var k := found.value;
      var path := rows[k].filePath;
      WithoutIdAt(rows, id, k);
      WithoutIdGone(rows, id);
      CutKeepsAscending(rows, k);
      rows := WithoutId(rows, id);
      if path != "" && path in blobs {
        if !unlinkOk {
          return Failed(ServerError);
        }
        blobs := blobs - {path};
      }
      r := Done;
    }

    /** `GET /api/videos/user/:userId`. */
    method ListByUser(userId: int, privileged: bool) returns (videos: seq<Clip>)
      ensures videos == OwnerListing(rows, userId, privileged)
    {
      videos := OwnerListing(rows, userId, privileged);
    }

    /** `GET /api/videos/recent`. */
    method Recent() returns (videos: seq<Clip>)
      ensures videos == RecentPublic(rows)
    {
      videos := RecentPublic(rows);
    }
  }

  /** A caller's view of the handlers: an upload without a file creates nothing; an MP4 upload
      creates a private clip that an unprivileged caller cannot fetch and the privileged caller
      can; after it is deleted, its hash is no longer found. */
  method UploadFetchDeleteScenario(hash1: seq<Digit36>, hash2: seq<Digit36>)
  {
    var store := new ClipStore();
    var form := UploadForm(Some("Clutch"), None, Some("Valorant"), Some("0:42"), None);
    var r := store.Upload(None, form, 1700000000000, 123456789, hash1, hash2, 0, "", true);
    assert r == Err(BadRequest) && store.rows == [];
    Mp4Accepted();
    r := store.Upload(Some(UploadedFile("clip.mp4", "video/mp4")), form, 1700000000000, 123456789,
                      hash1, hash2, 0, "", true);
    assert r.Ok? && r.value.isPrivate && |store.rows| == 1;
    var clip := store.rows[0];
    assert clip.isPrivate && clip.userId == 1 && clip.subtitle == "";
    assert FirstWithHash(store.rows, clip.videoHash, 0);
    var got := store.GetByHash(clip.videoHash, false);
    assert got == Err(Forbidden);
    got := store.GetByHash(clip.videoHash, true);
    assert got == Ok(clip);
    var deleted := store.Delete(clip.id, true);
    assert deleted == Done && store.rows == [];
    got := store.GetByHash(clip.videoHash, true);
    assert got == Err(NotFound);
  }

  /** An upload whose form has no title passes the filter, stores its file, and then fails at
      the insert: 500, no row, and the file left behind. */
  method UntitledUploadScenario(hash1: seq<Digit36>, hash2: seq<Digit36>)
  {
    var store := new ClipStore();
    var untitled := UploadForm(None, Some(""), Some("Valorant"), Some("0:42"), None);
    assert !InsertBindsDefined(untitled);
    Mp4Accepted();
    var r := store.Upload(Some(UploadedFile("clip.mp4", "video/mp4")), untitled, 1700000000000, 7,
                          hash1, hash2, 0, "", true);
    assert r == Err(ServerError) && store.rows == [] && store.blobs != {};
  }
}
