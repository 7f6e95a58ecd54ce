/** The clip row of the `videos` table and the pure parts of the clip server (server.js):
    the upload file filter and file naming, the share hash, the privileged-caller test,
    the static-file header mapping, and the queries that the handlers send to the table. */
module Clips {
  import opened Options
  import opened Text

  /** Why a request failed; `Status` gives the HTTP status the server answers with. */
  datatype Failure =
    | BadRequest      // no file in the upload
    | Forbidden       // private clip, unprivileged caller
    | NotFound        // no row with that hash or id
    | FilterRejected  // the upload file filter raised an error; Express's default handler answers it
    | ServerError     // a database or file-system call threw

  function Status(f: Failure): int
  {
    match f
    case BadRequest => 400
    case Forbidden => 403
    case NotFound => 404
    case FilterRejected => 500
    case ServerError => 500
  }

  datatype Result<+T> = Ok(value: T) | Err(failure: Failure)

  /** One row of the `videos` table. Title, game and duration are the text the client sent,
      unchecked (possibly empty); an upload that lacks one of them never creates a row. */
  datatype Clip = Clip(
    id: int,
    title: string,
    subtitle: string,
    game: string,
    duration: string,
    filePath: string,
    userId: int,
    uploadDate: int,
    videoHash: string,
    isPrivate: bool)

  /** The multipart file part named `video`: the client's file name and declared mimetype. */
  datatype UploadedFile = UploadedFile(originalName: string, mimetype: string)

  /** The text fields of the upload form. For title, subtitle, game and duration, `None` is a
      field missing from the request and `Some("")` an empty one. For the owner, `None` is a
      missing or empty field, the two values JavaScript treats as false in `userId || 1`. */
  datatype UploadForm = UploadForm(
    title: Option<string>,
    subtitle: Option<string>,
    game: Option<string>,
    duration: Option<string>,
    userId: Option<int>)

  /** The `video` object of a successful upload response. Its subtitle is the raw form value
      (not the stored default), it has no user id, and its date is the server's clock in ISO form. */
  datatype UploadedClip = UploadedClip(
    id: int,
    title: string,
    subtitle: Option<string>,
    game: string,
    duration: string,
    filePath: string,
    uploadDate: string,
    videoHash: string,
    isPrivate: bool)

  // ---------------------------------------------------------------------------------------
  // Upload file filter and file naming

  /** Position of the last '.' in `s`. */
  function LastDot(s: string): (k: Option<nat>)
    ensures k.Some? ==> k.value < |s| && s[k.value] == '.'
    ensures k.Some? ==> forall j :: k.value < j < |s| ==> s[j] != '.'
    ensures k.None? ==> forall j :: 0 <= j < |s| ==> s[j] != '.'
  {
    if s == [] then None
    else if s[|s| - 1] == '.' then Some(|s| - 1)
    else LastDot(s[..|s| - 1])
  }

  /** `path.extname` of a bare file name: from the last '.' to the end, or "" when there is no
      dot, when the only dot starts the name, or for "..". */
  function Extname(name: string): (e: string)
    ensures e == [] || (e[0] == '.' && EndsWith(name, e) && |e| < |name|)
    ensures forall j :: 0 < j < |e| ==> e[j] != '.'
  {
    if name == ".." then ""
    else match LastDot(name)
      case None => ""
      case Some(k) => if k == 0 then "" else name[k..]
  }

  /** The file types of the filter's regular expression /mp4|mov|avi|mkv|webm/. */
  const AllowedTypes: seq<string> := ["mp4", "mov", "avi", "mkv", "webm"]

  /** `/mp4|mov|avi|mkv|webm/.test(s)`: the expression has no anchors, so any substring matches. */
  predicate MatchesAllowedType(s: string)
  {
    Contains(s, "mp4") || Contains(s, "mov") || Contains(s, "avi") || Contains(s, "mkv") || Contains(s, "webm")
  }

  lemma MatchesAllowedTypeIff(s: string)
    ensures MatchesAllowedType(s) <==> exists t, i :: t in AllowedTypes && OccursAt(s, t, i)
  {
    ContainsIff(s, "mp4");
    ContainsIff(s, "mov");
    ContainsIff(s, "avi");
    ContainsIff(s, "mkv");
    ContainsIff(s, "webm");
    if exists t, i :: t in AllowedTypes && OccursAt(s, t, i) {
      var t, i :| t in AllowedTypes && OccursAt(s, t, i);
      assert t == "mp4" || t == "mov" || t == "avi" || t == "mkv" || t == "webm";
    }
  }

  /** The upload's `fileFilter`: the lower-cased extension of the client's file name AND the
      declared mimetype must each contain one of the allowed types. */
  predicate FileFilter(f: UploadedFile)
  {
    MatchesAllowedType(Lower(Extname(f.originalName))) && MatchesAllowedType(f.mimetype)
  }

  lemma FileFilterIff(f: UploadedFile)
    ensures FileFilter(f) <==>
      (exists t, i :: t in AllowedTypes && OccursAt(Lower(Extname(f.originalName)), t, i)) &&
      (exists t, i :: t in AllowedTypes && OccursAt(f.mimetype, t, i))
  {
    MatchesAllowedTypeIff(Lower(Extname(f.originalName)));
    MatchesAllowedTypeIff(f.mimetype);
  }

  /** Extname of a name whose last dot is at `k`, not at the start. */
  lemma ExtnameAt(name: string, k: nat)
    requires 0 < k < |name| && name[k] == '.' && name != ".."
    requires forall j :: k < j < |name| ==> name[j] != '.'
    ensures Extname(name) == name[k..]
  {
  }

  /** The test is a substring test: an extension that only starts with "mp4" passes. */
  lemma FileFilterUnanchored()
    ensures FileFilter(UploadedFile("clip.mp4x", "video/mp4"))
  {
    ExtnameAt("clip.mp4x", 4);
    assert "clip.mp4x"[4..] == ".mp4x";
    assert Lower(".mp4x") == ".mp4x";
    ContainsIff(".mp4x", "mp4");
    assert OccursAt(".mp4x", "mp4", 1);
    ContainsIff("video/mp4", "mp4");
    assert OccursAt("video/mp4", "mp4", 6);
  }

  /** An ordinary MP4 upload passes the filter. */
  lemma Mp4Accepted()
    ensures FileFilter(UploadedFile("clip.mp4", "video/mp4"))
  {
    var name := "clip.mp4";
    ExtnameAt(name, 4);
    assert name[4..] == ".mp4";
    assert Lower(".mp4") == ".mp4";
    ContainsIff(".mp4", "mp4");
    assert OccursAt(".mp4", "mp4", 1);
    assert MatchesAllowedType(".mp4");
    ContainsIff("video/mp4", "mp4");
    assert OccursAt("video/mp4", "mp4", 6);
    assert MatchesAllowedType("video/mp4");
  }

  /** Only the extension is lower-cased: a mimetype without lower-case letters never passes. */
  lemma {:induction false} UpperCaseMimetypeRejected(f: UploadedFile)
    requires forall i :: 0 <= i < |f.mimetype| ==> !('a' <= f.mimetype[i] <= 'z')
    ensures !FileFilter(f)
  {
    MatchesAllowedTypeIff(f.mimetype);
    forall t, i | t in AllowedTypes ensures !OccursAt(f.mimetype, t, i) {
      if 0 <= i && i + |t| <= |f.mimetype| {
        assert f.mimetype[i..i + |t|][0] == f.mimetype[i];
      }
    }
  }

  /** Every allowed type is at least three characters long and starts with 'm', 'a' or 'w',
      so a text with none of those letters before its last two characters never matches. */
  lemma {:induction false} NoAllowedTypeStart(s: string)
    requires forall j :: 0 <= j < |s| - 2 ==> s[j] != 'm' && s[j] != 'a' && s[j] != 'w'
    ensures !MatchesAllowedType(s)
  {
    MatchesAllowedTypeIff(s);
    forall t, i | t in AllowedTypes ensures !OccursAt(s, t, i) {
      if 0 <= i && i + |t| <= |s| {
        assert s[i..i + |t|][0] == s[i];
      }
    }
  }

  /** The mimetype browsers declare for QuickTime (.mov) files names none of the allowed types,
      so a .mov upload with its usual mimetype is refused. */
  lemma QuickTimeMovRejected()
    ensures !FileFilter(UploadedFile("clip.mov", "video/quicktime"))
  {
    var m := "video/quicktime";
    forall j | 0 <= j < |m| - 2 ensures m[j] != 'm' && m[j] != 'a' && m[j] != 'w' {
    }
    NoAllowedTypeStart(m);
  }

  /** The timestamp-and-random part of the stored file name, `Date.now() + '-' + Math.round(...)`. */
  function UniqueSuffix(clockMs: nat, random: nat): string
  {
    Decimal(clockMs) + "-" + Decimal(random)
  }

  /** The multer `filename`: the unique suffix followed by the original extension. */
  function FileName(clockMs: nat, random: nat, originalName: string): string
  {
    UniqueSuffix(clockMs, random) + Extname(originalName)
  }

  const UploadDir: string := "/uploads/videos/"

  /** The `file_path` stored in the row and the key of the blob. */
  function StoredPath(clockMs: nat, random: nat, originalName: string): (p: string)
    ensures |UploadDir| <= |p| && p[..|UploadDir|] == UploadDir
    ensures EndsWith(p, Extname(originalName))
  {
    var name := FileName(clockMs, random, originalName);
    assert (UploadDir + name)[..|UploadDir|] == UploadDir;
    assert (UploadDir + name)[|UploadDir + name| - |Extname(originalName)|..] == Extname(originalName);
    UploadDir + name
  }

  /** The part of a stored file name before the first '-'. */
  function StampPart(name: string): string
  {
    name[..IndexOf(name, '-')]
  }

  /** The part of a stored file name after the first '-'. */
  function AfterStamp(name: string): string
  {
    var i := IndexOf(name, '-');
    if i < |name| then name[i + 1..] else ""
  }

  /** Splits a stored file name into timestamp, random number and extension. */
  function ParseFileName(name: string): (nat, nat, string)
  {
    var rest := AfterStamp(name);
    var j := IndexOf(rest, '.');
    (ParseDecimal(StampPart(name)), ParseDecimal(rest[..j]), rest[j..])
  }

  /** Splitting at the first `c`, when `head` holds none and `tail` starts with it. */
  lemma SplitAtFirst(head: string, tail: string, c: char)
    requires forall j :: 0 <= j < |head| ==> head[j] != c
    requires tail == [] || tail[0] == c
    ensures IndexOf(head + tail, c) == |head|
    ensures (head + tail)[..|head|] == head && (head + tail)[|head|..] == tail
  {
    if tail == [] {
      assert head + tail == head;
    } else {
      IndexOfAfter(head, tail, c);
    }
  }

  /** A name of the form digits '-' digits extension splits back into its three parts. */
  lemma SplitFileName(a: string, b: string, e: string)
    requires forall j :: 0 <= j < |a| ==> IsDigit(a[j])
    requires forall j :: 0 <= j < |b| ==> IsDigit(b[j])
    requires e == [] || e[0] == '.'
    ensures StampPart(a + "-" + b + e) == a
    ensures AfterStamp(a + "-" + b + e) == b + e
    ensures IndexOf(b + e, '.') == |b| && (b + e)[..|b|] == b && (b + e)[|b|..] == e
  {
    var rest := b + e;
    var tail := ['-'] + rest;
    assert tail[1..] == rest;
    assert a + "-" + b + e == a + tail by {
      assert "-" + b + e == tail;
    }
    SplitAtFirst(a, tail, '-');
    SplitAtFirst(b, e, '.');
  }

  /** The file name carries the timestamp, the random number and the extension of the
      client's file name, and nothing else: in particular nothing from the title. */
  lemma {:induction false} FileNameRoundTrip(clockMs: nat, random: nat, originalName: string)
    ensures ParseFileName(FileName(clockMs, random, originalName)) == (clockMs, random, Extname(originalName))
  {
    SplitFileName(Decimal(clockMs), Decimal(random), Extname(originalName));
    DecimalRoundTrip(clockMs);
    DecimalRoundTrip(random);
  }

  // ---------------------------------------------------------------------------------------
  // Share hash

  /** A digit of a number written in base 36. */
  type Digit36 = d: int | 0 <= d < 36

  function Base36Char(d: Digit36): (c: char)
    ensures IsHashChar(c)
  {
    if d < 10 then ('0' as int + d) as char else ('a' as int + d - 10) as char
  }

  predicate IsHashChar(c: char)
  {
    '0' <= c <= '9' || 'a' <= c <= 'z'
  }

  /** `x.toString(36)` for a number `x` in [0, 1) whose base-36 fraction digits are `frac`:
      "0" for zero, otherwise "0." followed by the digits. */
  function Radix36(frac: seq<Digit36>): string
  {
    if frac == [] then "0" else "0." + seq(|frac|, i requires 0 <= i < |frac| => Base36Char(frac[i]))
  }

  /** `x.toString(36).substring(2, 15)`: JavaScript's substring clamps both ends to the length. */
  function HashFragment(frac: seq<Digit36>): (h: string)
    ensures |h| == if |frac| < 13 then |frac| else 13
    ensures forall i :: 0 <= i < |h| ==> h[i] == Base36Char(frac[i])
  {
    var s := Radix36(frac);
    s[(if |s| < 2 then |s| else 2)..(if |s| < 15 then |s| else 15)]
  }

  /** The `video_hash` minted at upload from two calls of `Math.random()`. */
  function VideoHash(frac1: seq<Digit36>, frac2: seq<Digit36>): (h: string)
    ensures |h| <= 26
    ensures forall i :: 0 <= i < |h| ==> IsHashChar(h[i])
  {
    var a, b := HashFragment(frac1), HashFragment(frac2);
    forall i | 0 <= i < |a + b| ensures IsHashChar((a + b)[i]) {
      if i < |a| {
        assert (a + b)[i] == a[i] == Base36Char(frac1[i]);
      } else {
        assert (a + b)[i] == b[i - |a|] == Base36Char(frac2[i - |a|]);
      }
    }
    a + b
  }

  // ---------------------------------------------------------------------------------------
  // The row an upload inserts and the response it sends

  /** The insert's parameters hold no `undefined`: the database driver throws on an
      `undefined` parameter, and title, game and duration are passed without a default. */
  predicate InsertBindsDefined(form: UploadForm)
  {
    form.title.Some? && form.game.Some? && form.duration.Some?
  }

  /** The row inserted by an upload: private whatever the request says, subtitle defaulting to
      "" and owner defaulting to 1, title, game and duration taken unchecked. A missing title,
      game or duration makes the driver refuse the insert. */
  function NewClip(id: int, form: UploadForm, filePath: string, now: int, hash: string): (r: Result<Clip>)
    ensures r.Ok? <==> InsertBindsDefined(form)
    ensures r.Err? ==> r.failure == ServerError
  {
    if !InsertBindsDefined(form) then Err(ServerError)
    else Ok(Clip(id, form.title.value,
                 match form.subtitle case Some(s) => s case None => "",
                 form.game.value, form.duration.value, filePath,
                 match form.userId case Some(u) => u case None => 1,
                 now, hash, true))
  }

  lemma NewClipDefaults(id: int, form: UploadForm, filePath: string, now: int, hash: string)
    requires InsertBindsDefined(form)
    ensures var c := NewClip(id, form, filePath, now, hash).value;
      && c.isPrivate
      && c.id == id && c.filePath == filePath && c.uploadDate == now && c.videoHash == hash
      && (form.subtitle.None? ==> c.subtitle == "") && (form.subtitle.Some? ==> c.subtitle == form.subtitle.value)
      && (form.userId.None? ==> c.userId == 1) && (form.userId.Some? ==> c.userId == form.userId.value)
      && Some(c.title) == form.title && Some(c.game) == form.game && Some(c.duration) == form.duration
  {
  }

  /** The response body of a successful upload: the request's fields (the subtitle as sent,
      not its stored default), the new id, path and hash, and the server's clock in ISO form. */
  function UploadResponse(c: Clip, form: UploadForm, isoNow: string): UploadedClip
  {
    UploadedClip(c.id, c.title, form.subtitle, c.game, c.duration, c.filePath, isoNow, c.videoHash, true)
  }

  /** The response describes the stored row: the same id, text fields, path, hash and privacy,
      except that a missing subtitle is reported missing although "" was stored. */
  lemma UploadResponseDescribesRow(id: int, form: UploadForm, filePath: string, now: int, hash: string, isoNow: string)
    requires InsertBindsDefined(form)
    ensures var c := NewClip(id, form, filePath, now, hash).value;
      var v := UploadResponse(c, form, isoNow);
      && v.id == c.id == id && v.title == c.title && v.game == c.game && v.duration == c.duration
      && v.filePath == c.filePath == filePath && v.videoHash == c.videoHash == hash
      && v.isPrivate && c.isPrivate && v.uploadDate == isoNow
      && (v.subtitle.Some? ==> v.subtitle.value == c.subtitle)
      && (v.subtitle.None? ==> c.subtitle == "")
  {
  }

  // ---------------------------------------------------------------------------------------
  // Privileged caller and static-file headers

  /** `X-User-Type` is "jay", or the `Origin` header contains the site's domain. */
  predicate IsPrivileged(userType: Option<string>, origin: Option<string>)
  {
    userType == Some("jay") || (origin.Some? && Contains(origin.value, "vids.extracted.lol"))
  }

  lemma IsPrivilegedIff(userType: Option<string>, origin: Option<string>)
    ensures IsPrivileged(userType, origin) <==>
      userType == Some("jay") || (origin.Some? && exists i :: OccursAt(origin.value, "vids.extracted.lol", i))
  {
    if origin.Some? {
      ContainsIff(origin.value, "vids.extracted.lol");
    }
  }

  /** Extensions for which `setHeaders` overrides the range and type headers. */
  const RangedExtensions: seq<string> := [".mp4", ".mov", ".avi", ".webm"]

  const VideoHeaders: seq<(string, string)> := [("Accept-Ranges", "bytes"), ("Content-Type", "video/mp4")]

  /** `setHeaders` of the static handler for `/uploads`: headers it sets for a served path. */
  function StaticHeaders(path: string): (h: seq<(string, string)>)
    ensures h == VideoHeaders || h == []
    ensures h == VideoHeaders <==> exists ext :: ext in RangedExtensions && EndsWith(path, ext)
  {
    if EndsWith(path, ".mp4") || EndsWith(path, ".mov") || EndsWith(path, ".avi") || EndsWith(path, ".webm")
    then VideoHeaders
    else []
  }

  /** Matroska files, although accepted at upload, get no override from `setHeaders`. */
  lemma {:induction false} MkvHasNoVideoHeaders(path: string)
    requires EndsWith(path, ".mkv")
    ensures StaticHeaders(path) == []
  {
    var n := |path|;
    assert path[n - 1] == ".mkv"[3] == 'v';
    assert path[n - 2] == ".mkv"[2] == 'k';
  }

  /** The filter lower-cases the extension but the stored name keeps it as sent, and the
      header mapping compares case-sensitively: an upper-case `.MP4` upload is accepted, and then
      `setHeaders` adds no override for its path. */
  lemma UpperCaseMp4NoVideoHeaders(clockMs: nat, random: nat)
    ensures FileFilter(UploadedFile("CLIP.MP4", "video/mp4"))
    ensures StaticHeaders(StoredPath(clockMs, random, "CLIP.MP4")) == []
  {
    var name := "CLIP.MP4";
    ExtnameAt(name, 4);
    assert Extname(name) == ".MP4";
    assert Lower(".MP4") == ".mp4";
    ContainsIff(".mp4", "mp4");
    assert OccursAt(".mp4", "mp4", 1);
    ContainsIff("video/mp4", "mp4");
    assert OccursAt("video/mp4", "mp4", 6);
    var path := StoredPath(clockMs, random, name);
    var n := |path|;
    assert path[n - 1] == ".MP4"[3] == '4';
    assert path[n - 2] == ".MP4"[2] == 'P';
  }

  // ---------------------------------------------------------------------------------------
  // Queries on the table (kept in insertion order, which is ascending id order)

  /** Ids strictly increase along the table, so no two rows share an id. */
  ghost predicate IdsAscending(rows: seq<Clip>)
  {
    forall i, j :: 0 <= i < j < |rows| ==> rows[i].id < rows[j].id
  }

  /** `k` is the first row whose hash is `hash`. */
  ghost predicate FirstWithHash(rows: seq<Clip>, hash: string, k: int)
  {
    0 <= k < |rows| && rows[k].videoHash == hash && forall j :: 0 <= j < k ==> rows[j].videoHash != hash
  }

  /** `SELECT * FROM videos WHERE video_hash = ?` followed by `videos[0]`: the first match. */
  function FindByHash(rows: seq<Clip>, hash: string): (k: Option<nat>)
    ensures k.Some? ==> FirstWithHash(rows, hash, k.value)
    ensures k.None? ==> forall j :: 0 <= j < |rows| ==> rows[j].videoHash != hash
  {
    if rows == [] then None
    else if rows[0].videoHash == hash then Some(0)
    else match FindByHash(rows[1..], hash)
      case None => None
      case Some(k) => Some(k + 1)
  }

  /** `SELECT file_path FROM videos WHERE id = ?`, first row. */
  function FindById(rows: seq<Clip>, id: int): (k: Option<nat>)
    ensures k.Some? ==> k.value < |rows| && rows[k.value].id == id
    ensures k.Some? ==> forall j :: 0 <= j < k.value ==> rows[j].id != id
    ensures k.None? ==> forall j :: 0 <= j < |rows| ==> rows[j].id != id
  {
    if rows == [] then None
    else if rows[0].id == id then Some(0)
    else match FindById(rows[1..], id)
      case None => None
      case Some(k) => Some(k + 1)
  }

  /** `UPDATE videos SET is_private = ? WHERE id = ?`. */
  function WithPrivacy(rows: seq<Clip>, id: int, isPrivate: bool): (r: seq<Clip>)
    ensures |r| == |rows|
    ensures forall i :: 0 <= i < |rows| ==>
      r[i] == if rows[i].id == id then rows[i].(isPrivate := isPrivate) else rows[i]
  {
    if rows == [] then []
    else [if rows[0].id == id then rows[0].(isPrivate := isPrivate) else rows[0]] + WithPrivacy(rows[1..], id, isPrivate)
  }

  /** Setting a clip private and then public again leaves every row as it would be had it only
      been made public: the target row public, every other field and row untouched. */
  lemma {:induction false} PrivacyRoundTrip(rows: seq<Clip>, id: int)
    ensures WithPrivacy(WithPrivacy(rows, id, true), id, false) == WithPrivacy(rows, id, false)
    ensures forall i :: 0 <= i < |rows| && rows[i].id == id ==>
      WithPrivacy(WithPrivacy(rows, id, true), id, false)[i] == rows[i].(isPrivate := false)
  {
    if rows != [] {
      PrivacyRoundTrip(rows[1..], id);
    }
  }

  /** `DELETE FROM videos WHERE id = ?`: every row with that id is removed, order kept. */
  function WithoutId(rows: seq<Clip>, id: int): (r: seq<Clip>)
    ensures |r| <= |rows|
  {
    if rows == [] then []
    else if rows[0].id == id then WithoutId(rows[1..], id)
    else [rows[0]] + WithoutId(rows[1..], id)
  }

  /** The rows left by a delete are exactly the rows with another id. */
  lemma {:induction false} WithoutIdMembers(rows: seq<Clip>, id: int)
    ensures forall c :: c in WithoutId(rows, id) <==> c in rows && c.id != id
  {
    if rows != [] {
      WithoutIdMembers(rows[1..], id);
      assert rows == [rows[0]] + rows[1..];
    }
  }

  /** The rows after the first keep ascending ids, all above the first row's. */
  lemma AscendingTail(rows: seq<Clip>)
    requires IdsAscending(rows) && rows != []
    ensures IdsAscending(rows[1..])
    ensures forall j :: 0 <= j < |rows[1..]| ==> rows[1..][j].id > rows[0].id
  {
    var tail := rows[1..];
    forall i, j | 0 <= i < j < |tail| ensures tail[i].id < tail[j].id {
      assert tail[i] == rows[i + 1] && tail[j] == rows[j + 1];
    }
    forall j | 0 <= j < |tail| ensures tail[j].id > rows[0].id {
      assert tail[j] == rows[j + 1];
    }
  }

  /** With ascending ids, deleting the row found at `k` is cutting it out of the table. */
  lemma {:induction false} WithoutIdAt(rows: seq<Clip>, id: int, k: nat)
    requires IdsAscending(rows)
    requires k < |rows| && rows[k].id == id
    ensures WithoutId(rows, id) == rows[..k] + rows[k + 1..]
  {
    var tail := rows[1..];
    AscendingTail(rows);
    if k == 0 {
      WithoutAbsent(tail, id);
      assert rows[..0] + rows[1..] == tail;
    } else {
      assert rows[0].id < rows[k].id;
      WithoutIdAt(tail, id, k - 1);
      assert rows[..k] + rows[k + 1..] == [rows[0]] + (tail[..k - 1] + tail[k..]);
    }
  }

  lemma {:induction false} WithoutAbsent(rows: seq<Clip>, id: int)
    requires forall j :: 0 <= j < |rows| ==> rows[j].id > id
    ensures WithoutId(rows, id) == rows
  {
    if rows != [] {
      WithoutAbsent(rows[1..], id);
    }
  }

  /** No row with the deleted id is left. */
  lemma WithoutIdGone(rows: seq<Clip>, id: int)
    ensures forall j :: 0 <= j < |WithoutId(rows, id)| ==> WithoutId(rows, id)[j].id != id
  {
    WithoutIdMembers(rows, id);
    var r := WithoutId(rows, id);
    forall j | 0 <= j < |r| ensures r[j].id != id {
      assert r[j] in r;
    }
  }

  /** After a delete, a hash that only the deleted row carried is no longer found. */
  lemma DeletedHashNotFound(rows: seq<Clip>, k: nat)
    requires k < |rows|
    requires forall j :: 0 <= j < |rows| && j != k ==> rows[j].videoHash != rows[k].videoHash
    ensures FindByHash(WithoutId(rows, rows[k].id), rows[k].videoHash).None?
  {
    var r := WithoutId(rows, rows[k].id);
    WithoutIdMembers(rows, rows[k].id);
    forall j | 0 <= j < |r| ensures r[j].videoHash != rows[k].videoHash {
      assert r[j] in rows;
    }
  }

  /** Hashes are never checked for uniqueness: a later row with an existing hash is shadowed. */
  lemma {:induction false} AppendKeepsFirstMatch(rows: seq<Clip>, c: Clip, hash: string)
    requires FindByHash(rows, hash).Some?
    ensures FindByHash(rows + [c], hash) == FindByHash(rows, hash)
  {
    if rows[0].videoHash != hash {
      assert (rows + [c])[1..] == rows[1..] + [c];
      AppendKeepsFirstMatch(rows[1..], c, hash);
    }
  }

  // ---------------------------------------------------------------------------------------
  // Listings

  /** The rows of `rows` that `keep` accepts, in table order. */
  function Filter(rows: seq<Clip>, keep: Clip -> bool): (r: seq<Clip>)
    ensures |r| <= |rows|
    ensures forall c :: c in r ==> keep(c)
    ensures forall c :: keep(c) ==> multiset(r)[c] == multiset(rows)[c]
    ensures multiset(r) <= multiset(rows)
  {
    if rows == [] then []
    else
      var tail := Filter(rows[1..], keep);
      assert rows == [rows[0]] + rows[1..];
      if keep(rows[0]) then [rows[0]] + tail else tail
  }

  /** Ordered by `upload_date DESC`. */
  ghost predicate NewestFirst(s: seq<Clip>)
  {
    forall i, j :: 0 <= i < j < |s| ==> s[i].uploadDate >= s[j].uploadDate
  }

  /** A row no older than the head of a newest-first list can be put in front of it. */
  lemma ConsNewestFirst(x: Clip, t: seq<Clip>)
    requires NewestFirst(t)
    requires t == [] || x.uploadDate >= t[0].uploadDate
    ensures NewestFirst([x] + t)
  {
    var r := [x] + t;
    forall i, j | 0 <= i < j < |r| ensures r[i].uploadDate >= r[j].uploadDate {
      if i == 0 && j > 1 {
        assert r[1] == t[0] && r[j] == t[j - 1];
      }
    }
  }

  /** Places `c` before the first row strictly older than it. */
  function InsertNewestFirst(c: Clip, s: seq<Clip>): (r: seq<Clip>)
    requires NewestFirst(s)
    ensures NewestFirst(r)
    ensures multiset(r) == multiset(s) + multiset{c}
    ensures |r| == |s| + 1
    ensures r[0] == c || (s != [] && r[0] == s[0])
  {
    if s == [] || c.uploadDate >= s[0].uploadDate then
      ConsNewestFirst(c, s);
      [c] + s
    else
      var tail := InsertNewestFirst(c, s[1..]);
      assert s == [s[0]] + s[1..];
      ConsNewestFirst(s[0], tail);
      [s[0]] + tail
  }

  /** Sorts by upload date, newest first; rows with equal dates keep their table order. */
  function SortNewestFirst(s: seq<Clip>): (r: seq<Clip>)
    ensures NewestFirst(r)
    ensures multiset(r) == multiset(s)
    ensures |r| == |s|
  {
    if s == [] then []
    else
      assert s == [s[0]] + s[1..];
      InsertNewestFirst(s[0], SortNewestFirst(s[1..]))
  }

  /** What the owner listing filters on: the owner, and public rows only for other callers. */
  predicate ListedForOwner(c: Clip, userId: int, privileged: bool)
  {
    c.userId == userId && (privileged || !c.isPrivate)
  }

  /** `SELECT * FROM videos WHERE user_id = ? [AND is_private = FALSE] ORDER BY upload_date DESC`. */
  function OwnerListing(rows: seq<Clip>, userId: int, privileged: bool): (r: seq<Clip>)
    ensures NewestFirst(r)
    ensures forall c :: c in r ==> c.userId == userId && (privileged || !c.isPrivate)
    ensures forall c :: c in rows && ListedForOwner(c, userId, privileged) ==> multiset(r)[c] == multiset(rows)[c]
    ensures multiset(r) <= multiset(rows)
  {
    var keep := (c: Clip) => ListedForOwner(c, userId, privileged);
    var f := Filter(rows, keep);
    var s := SortNewestFirst(f);
    forall c | c in s ensures c in f {
      assert c in multiset(s);
    }
    s
  }

  const RecentLimit: nat := 4

  predicate IsPublic(c: Clip) { !c.isPrivate }

  /** Public rows of the table, newest first. */
  function PublicNewestFirst(rows: seq<Clip>): (s: seq<Clip>)
    ensures NewestFirst(s)
    ensures multiset(s) == multiset(Filter(rows, IsPublic))
    ensures |s| == |Filter(rows, IsPublic)|
    ensures forall c :: c in s ==> !c.isPrivate
  {
    var f := Filter(rows, IsPublic);
    var s := SortNewestFirst(f);
    forall c | c in s ensures !c.isPrivate {
      assert c in multiset(s);
      assert c in f;
    }
    s
  }

  /** The first `n` rows of a newest-first list are newest first, and no row left out is newer
      than any row kept. */
  lemma {:induction false} NewestPrefix(s: seq<Clip>, n: nat)
    requires NewestFirst(s) && n <= |s|
    ensures NewestFirst(s[..n])
    ensures multiset(s) == multiset(s[..n]) + multiset(s[n..])
    ensures forall c :: c in multiset(s) - multiset(s[..n]) ==>
      forall k :: 0 <= k < n ==> c.uploadDate <= s[k].uploadDate
  {
    assert s == s[..n] + s[n..];
    forall c | c in multiset(s) - multiset(s[..n])
      ensures forall k :: 0 <= k < n ==> c.uploadDate <= s[k].uploadDate
    {
      assert c in multiset(s[n..]);
      var j :| 0 <= j < |s[n..]| && s[n..][j] == c;
      assert s[n + j] == c;
    }
  }

  /** `SELECT * FROM videos WHERE is_private = FALSE ORDER BY upload_date DESC LIMIT 4`. */
  function RecentPublic(rows: seq<Clip>): (r: seq<Clip>)
    ensures |r| <= RecentLimit
    ensures forall c :: c in r ==> !c.isPrivate
    ensures NewestFirst(r)
  {
    var s := PublicNewestFirst(rows);
    var n := if |s| < RecentLimit then |s| else RecentLimit;
    NewestPrefix(s, n);
    forall c | c in s[..n] ensures !c.isPrivate {
      assert c in s;
    }
    s[..n]
  }

  /** The recent list holds the four newest public rows, or all of them when there are fewer:
      no public row left out is newer than a row listed. */
  lemma RecentPublicNewest(rows: seq<Clip>)
    ensures var r := RecentPublic(rows);
      && multiset(r) <= multiset(Filter(rows, IsPublic))
      && |r| == (if |Filter(rows, IsPublic)| < RecentLimit then |Filter(rows, IsPublic)| else RecentLimit)
      && forall c :: c in multiset(Filter(rows, IsPublic)) - multiset(r) ==>
           forall k :: 0 <= k < |r| ==> c.uploadDate <= r[k].uploadDate
  {
    var s := PublicNewestFirst(rows);
    var n := if |s| < RecentLimit then |s| else RecentLimit;
    NewestPrefix(s, n);
  }
}
