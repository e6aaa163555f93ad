/** The media rehomer: for every changed tip whose `mediaUrl` points
    somewhere other than the R2 bucket, download the media, store it in the
    bucket under a key made of the tip's name and a hash of the URL, and point
    `mediaUrl` at the bucket's public address. URL parsing, the download, the
    MD5 digest and the object store are parameters. */
module UploadMedia {
  import opened Strings
  import opened Tips
  import opened Paths

  // ---------------------------------------------------------------------
  // Configuration (the module-level constants and validateEnv)
  // ---------------------------------------------------------------------

  const AccountIdVar := "R2_ACCOUNT_ID"
  const AccessKeyIdVar := "R2_ACCESS_KEY_ID"
  const SecretAccessKeyVar := "R2_SECRET_ACCESS_KEY"
  const PublicUrlVar := "R2_PUBLIC_URL"
  const BucketNameVar := "R2_BUCKET_NAME"
  const DefaultBucketName := "zed-tips-media"

  /** The variables `validateEnv` insists on, in the order it checks them. */
  const RequiredVars: seq<string> := [AccountIdVar, AccessKeyIdVar, SecretAccessKeyVar, PublicUrlVar]

  /** `process.env[name]` is truthy: set and not empty. */
  predicate EnvSet(env: map<string, string>, name: string) {
    name in env && env[name] != ""
  }

  /** `process.env[name]`, with `undefined` read as "". */
  function EnvValue(env: map<string, string>, name: string): (r: string)
    ensures r != "" <==> EnvSet(env, name)
    ensures name in env ==> r == env[name]
    ensures name !in env ==> r == ""
  {
    if name in env then env[name] else ""
  }

  /** The names among `names` that are unset or empty, in their order. */
  function MissingVars(names: seq<string>, env: map<string, string>): seq<string>
  {
    if |names| == 0 then []
    else (if EnvSet(env, names[0]) then [] else [names[0]]) + MissingVars(names[1..], env)
  }

  /** A name is reported exactly when it is required and unset or empty. */
  lemma {:induction false} MissingVarsMembers(names: seq<string>, env: map<string, string>)
    ensures forall n :: n in MissingVars(names, env) <==> n in names && !EnvSet(env, n)
  {
    if |names| > 0 {
      MissingVarsMembers(names[1..], env);
      assert names == [names[0]] + names[1..];
    }
  }

  /** The names are reported in the order they are checked. */
  lemma {:induction false} MissingVarsInOrder(names: seq<string>, env: map<string, string>)
    ensures IsSubsequence(MissingVars(names, env), names)
  {
    if |names| > 0 {
      var rest := MissingVars(names[1..], env);
      MissingVarsInOrder(names[1..], env);
      if EnvSet(env, names[0]) {
        assert MissingVars(names, env) == rest;
        SubsequenceOfTail(rest, names);
      } else {
        assert ([names[0]] + rest)[1..] == rest;
      }
    }
  }

  lemma {:induction false} MissingVarsAppend(a: seq<string>, b: seq<string>, env: map<string, string>)
    ensures MissingVars(a + b, env) == MissingVars(a, env) + MissingVars(b, env)
  {
    if |a| == 0 {
      assert a + b == b;
    } else {
      assert (a + b)[1..] == a[1..] + b;
      MissingVarsAppend(a[1..], b, env);
    }
  }

  /** Checking one more name appends it when it is missing. */
  lemma MissingVarsStep(names: seq<string>, env: map<string, string>, k: nat)
    requires 0 < k <= |names|
    ensures MissingVars(names[..k], env) ==
      MissingVars(names[..k - 1], env) + (if EnvSet(env, names[k - 1]) then [] else [names[k - 1]])
  {
    assert names[..k] == names[..k - 1] + [names[k - 1]];
    MissingVarsAppend(names[..k - 1], [names[k - 1]], env);
    assert [names[k - 1]][1..] == [];
  }

  /** `validateEnv`: one check per required variable, each pushing the
      variable's name when it is unset or empty. The script exits with
      status 1 when the list is not empty. */
  method ValidateEnv(env: map<string, string>) returns (missing: seq<string>)
    ensures missing == MissingVars(RequiredVars, env)
  {
    var names := RequiredVars;  // R2_ACCOUNT_ID, R2_ACCESS_KEY_ID, R2_SECRET_ACCESS_KEY, R2_PUBLIC_URL
    missing := [];
    if !EnvSet(env, names[0]) {
      missing := missing + [names[0]];
    }
    assert names[..0] == [];
    MissingVarsStep(names, env, 1);
    assert missing == MissingVars(names[..1], env);
    if !EnvSet(env, names[1]) {
      missing := missing + [names[1]];
    }
    MissingVarsStep(names, env, 2);
    assert missing == MissingVars(names[..2], env);
    if !EnvSet(env, names[2]) {
      missing := missing + [names[2]];
    }
    MissingVarsStep(names, env, 3);
    assert missing == MissingVars(names[..3], env);
    if !EnvSet(env, names[3]) {
      missing := missing + [names[3]];
    }
    MissingVarsStep(names, env, 4);
    assert missing == MissingVars(names[..4], env);
    assert names[..4] == names;
  }

  /** `R2_BUCKET_NAME || 'zed-tips-media'`: never empty. */
  function BucketName(env: map<string, string>): (r: string)
    ensures r != ""
    ensures EnvSet(env, BucketNameVar) ==> r == env[BucketNameVar]
    ensures !EnvSet(env, BucketNameVar) ==> r == DefaultBucketName
  {
    if EnvSet(env, BucketNameVar) then env[BucketNameVar] else DefaultBucketName
  }

  // ---------------------------------------------------------------------
  // Content type, object key and public address
  // ---------------------------------------------------------------------

  const OctetStream := "application/octet-stream"

  /** `getContentType`'s table, keyed by lower-case extension. */
  const ContentTypes: map<string, string> := map[
    ".jpg" := "image/jpeg", ".jpeg" := "image/jpeg", ".png" := "image/png",
    ".gif" := "image/gif", ".webp" := "image/webp", ".svg" := "image/svg+xml",
    ".mp4" := "video/mp4", ".webm" := "video/webm", ".mov" := "video/quicktime"]

  /** The table entry for an extension, or the generic binary type. */
  function ContentTypeOf(ext: string): (r: string)
    ensures ext in ContentTypes ==> r == ContentTypes[ext]
    ensures ext !in ContentTypes ==> r == OctetStream
  {
    if ext in ContentTypes then ContentTypes[ext] else OctetStream
  }

  /** `getContentType(url)`: the type announced by the lower-cased extension
      of the URL's path; `None` when `new URL(url)` throws. */
  function ContentType(mediaUrl: Value, parse: UrlParser): (r: Option<string>)
    ensures r.None? <==> parse(mediaUrl).None?
    ensures r.Some? ==> r.value == ContentTypeOf(ToLowerAscii(Extname(parse(mediaUrl).value.pathname)))
  {
    match parse(mediaUrl)
    case None => None
    case Some(url) => Some(ContentTypeOf(ToLowerAscii(Extname(url.pathname))))
  }

  /** A lower-case hexadecimal string, which is what `digest('hex')` gives. */
  predicate IsHex(s: string) {
    forall i :: 0 <= i < |s| ==> ('0' <= s[i] <= '9' || 'a' <= s[i] <= 'f')
  }

  /** `substring(0, 8)`: hex digits, and no slash, when the digest is hex. */
  function HashPrefix(digest: string): (r: string)
    ensures |r| == if |digest| < 8 then |digest| else 8
    ensures HasPrefix(digest, r)
    ensures IsHex(digest) ==> IsHex(r) && '/' !in r
  {
    if |digest| <= 8 then digest
    else
      var r := digest[..8];
      assert forall i :: 0 <= i < 8 ==> r[i] == digest[i];
      r
  }

  /** The extension a key gets when the URL path has none. */
  const JpgExtension := ".jpg"

  lemma JpgIsExtension()
    ensures IsExtension(JpgExtension)
  {
    var jpg := JpgExtension;
    assert jpg[0] == '.' && jpg[1] == 'j' && jpg[2] == 'p' && jpg[3] == 'g';
  }

  /** The key's extension: the URL path's, or ".jpg" when it has none. */
  function KeyExtension(pathname: string): (r: string)
    ensures IsExtension(r)
    ensures Extname(pathname) != "" ==> r == Extname(pathname)
    ensures Extname(pathname) == "" ==> r == JpgExtension
  {
    var e := Extname(pathname);
    if e != "" then e
    else
      JpgIsExtension();
      JpgExtension
  }

  /** `generateFilename(originalUrl, tipFilename)`: the tip's file name
      without its extension, a hyphen, the first eight hex digits of the
      URL's MD5 digest, and the key's extension. */
  function GenerateFilename(originalUrl: string, tipPath: string, url: Url, md5: string -> string): (r: string)
    ensures HasPrefix(r, Stem(tipPath) + "-" + HashPrefix(md5(originalUrl)))
    ensures HasSuffix(r, KeyExtension(url.pathname))
    ensures |r| == |Stem(tipPath)| + 1 + |HashPrefix(md5(originalUrl))| + |KeyExtension(url.pathname)|
  {
    var base := Stem(tipPath) + "-" + HashPrefix(md5(originalUrl));
    var r := base + KeyExtension(url.pathname);
    assert r[..|base|] == base;
    r
  }

  /** The object key keeps the extension of the media's URL: the stored
      object announces the same file type as the original address. */
  lemma KeyKeepsExtension(originalUrl: string, tipPath: string, url: Url, md5: string -> string)
    requires IsHex(md5(originalUrl))
    ensures Extname(GenerateFilename(originalUrl, tipPath, url, md5)) == KeyExtension(url.pathname)
  {
    var digest := md5(originalUrl);
    var h := HashPrefix(digest);
    var base := Stem(tipPath) + "-" + h;
    var ext := KeyExtension(url.pathname);
    assert '/' !in h;
    assert GenerateFilename(originalUrl, tipPath, url, md5) == base + ext;
    assert (base + ext)[|Stem(tipPath)|] == '-';
    ExtnameOfNamedFile(base, ext);
  }

  /** When the URL's path has an extension, the key and the content type
      announce the same type. */
  lemma KeyAnnouncesContentType(media: string, tipPath: string, parse: UrlParser, md5: string -> string)
    requires IsHex(md5(media)) && parse(Str(media)).Some?
    requires Extname(parse(Str(media)).value.pathname) != ""
    ensures var key := GenerateFilename(media, tipPath, parse(Str(media)).value, md5);
      ContentType(Str(media), parse) == Some(ContentTypeOf(ToLowerAscii(Extname(key))))
  {
    KeyKeepsExtension(media, tipPath, parse(Str(media)).value, md5);
  }

  /** Without an extension the key ends in ".jpg" while the content type is
      the generic binary one. */
  lemma ExtensionlessKey(media: string, tipPath: string, parse: UrlParser, md5: string -> string)
    requires IsHex(md5(media)) && parse(Str(media)).Some?
    requires Extname(parse(Str(media)).value.pathname) == ""
    ensures var key := GenerateFilename(media, tipPath, parse(Str(media)).value, md5);
      Extname(key) == ".jpg" && ContentType(Str(media), parse) == Some(OctetStream)
  {
    KeyKeepsExtension(media, tipPath, parse(Str(media)).value, md5);
    NoExtensionIsBinary();
  }

  lemma NoExtensionIsBinary()
    ensures ContentTypeOf(ToLowerAscii("")) == OctetStream
  {
    assert ToLowerAscii("") == "";
    assert forall e :: e in ContentTypes ==> e != "";
  }

  /** The extension is looked up case-insensitively. */
  lemma UpperCaseExtensionExample()
    ensures ContentTypeOf(ToLowerAscii(".MP4")) == "video/mp4"
  {
    var s := ".MP4";
    assert s[1..] == "MP4" && s[1..][1..] == "P4" && s[1..][1..][1..] == "4";
    assert ToLowerAscii("4") == "4";
    assert ToLowerAscii(s) == ".mp4";
    var table := ContentTypes;
    assert table[".mp4"] == "video/mp4";
  }

  /** A dot file has no extension, so its type is the generic one. */
  lemma DotFileExample()
    ensures Extname("/media/.png") == ""
  {
    BasenameOfJoin("/media", ".png");
    assert "/media/.png" == "/media" + "/" + ".png";
  }

  /** `uploadToR2`'s result: the public address of the stored object. */
  function R2Url(publicUrl: string, key: string): (r: string)
    ensures HasPrefix(r, publicUrl + "/") && r[|publicUrl| + 1..] == key
  {
    publicUrl + "/" + key
  }

  /** `isR2Url(url)`: a truthy value whose URL names the same host as the
      public address; a value or public address `new URL` rejects is not. */
  predicate IsR2Url(v: Value, publicUrl: string, parse: UrlParser)
    ensures !Truthy(v) || parse(v).None? || parse(Str(publicUrl)).None? ==> !IsR2Url(v, publicUrl, parse)
    ensures Truthy(v) && parse(v).Some? && parse(Str(publicUrl)).Some? ==>
      (IsR2Url(v, publicUrl, parse) <==> parse(v).value.hostname == parse(Str(publicUrl)).value.hostname)
  {
    Truthy(v) && parse(v).Some? && parse(Str(publicUrl)).Some?
    && parse(v).value.hostname == parse(Str(publicUrl)).value.hostname
  }

  // ---------------------------------------------------------------------
  // One file (processFile)
  // ---------------------------------------------------------------------

  const MediaUrlKey := "mediaUrl"

  /** What the network, the digest and the object store do, as seen by
      `processFile`: `download(url)` and `upload(key)` say whether the
      transfer succeeded. */
  datatype Services = Services(
    parse: UrlParser,
    md5: string -> string,
    download: string -> bool,
    upload: string -> bool)

  /** Why `processFile` threw. A `mediaUrl` that is not a string fails in
      the download, where `url.startsWith` is not a function. */
  datatype RehomeError =
    | ReadFailed
    | DecodeFailed(reason: string)
    | DownloadFailed
    | InvalidUrl
    | UploadFailed

  /** What processing one path returns (true, false, or a thrown error)
      and leaves on disk. */
  datatype FileStep = FileStep(uploaded: bool, failure: Option<RehomeError>, disk: Disk)

  /** `processFile` fails before touching the media: the file is missing or
      undecodable. */
  predicate Unreadable(disk: Disk, path: string) {
    path !in disk || disk[path].Undecodable?
  }

  /** The file is read and its `mediaUrl` needs no upload: it is absent or
      falsy, or already on the bucket's host. */
  predicate NeedsNoUpload(disk: Disk, path: string, publicUrl: string, parse: UrlParser) {
    path in disk && disk[path].Tip?
    && (!FieldTruthy(disk[path].frontMatter, MediaUrlKey)
        || IsR2Url(disk[path].frontMatter[MediaUrlKey], publicUrl, parse))
  }

  /** The disk after `frontMatter.mediaUrl = url` and writing the file
      back: that one field of that one file changes, and nothing else. */
  function WithMediaUrl(disk: Disk, path: string, url: string): (r: Disk)
    requires path in disk && disk[path].Tip?
    ensures r.Keys == disk.Keys
    ensures forall q :: q in disk && q != path ==> r[q] == disk[q]
    ensures r[path].Tip? && r[path].body == disk[path].body
    ensures r[path].frontMatter.Keys == disk[path].frontMatter.Keys + {MediaUrlKey}
    ensures Field(r[path].frontMatter, MediaUrlKey) == Some(Str(url))
    ensures forall k :: k != MediaUrlKey ==> Field(r[path].frontMatter, k) == Field(disk[path].frontMatter, k)
  {
    var fm := disk[path].frontMatter;
    disk[path := Tip(fm[MediaUrlKey := Str(url)], disk[path].body)]
  }

  /** The file is read and its truthy `mediaUrl` is not on the bucket's
      host: `processFile` goes on to download it. */
  predicate NeedsUpload(disk: Disk, path: string, publicUrl: string, parse: UrlParser) {
    path in disk && disk[path].Tip?
    && FieldTruthy(disk[path].frontMatter, MediaUrlKey)
    && !IsR2Url(disk[path].frontMatter[MediaUrlKey], publicUrl, parse)
  }

  /** The effect of `processFile` on one path. When it skips or fails the
      disk is left alone; when it uploads, `mediaUrl` is set to the stored
      object's public address and nothing else in the file changes. A file
      that needs an upload fails in the download (a failed transfer, or a
      `mediaUrl` that is not a string), then in the URL parse, then in the
      upload, and is uploaded exactly when all three succeed. */
  function Rehome(path: string, disk: Disk, publicUrl: string, svc: Services): (r: FileStep)
    ensures r.uploaded ==> r.failure.None?
    ensures !r.uploaded ==> r.disk == disk
    ensures path !in disk ==> r.failure == Some(ReadFailed)
    ensures path in disk && disk[path].Undecodable? ==> r.failure == Some(DecodeFailed(disk[path].reason))
    ensures (!r.uploaded && r.failure.None?) <==> NeedsNoUpload(disk, path, publicUrl, svc.parse)
    ensures NeedsUpload(disk, path, publicUrl, svc.parse) ==>
      var media := disk[path].frontMatter[MediaUrlKey];
      && (!media.Str? || !svc.download(media.s) ==> r.failure == Some(DownloadFailed))
      && (media.Str? && svc.download(media.s) && svc.parse(media).None? ==> r.failure == Some(InvalidUrl))
      && (media.Str? && svc.download(media.s) && svc.parse(media).Some? ==>
            var key := GenerateFilename(media.s, path, svc.parse(media).value, svc.md5);
            (r.uploaded <==> svc.upload(key)) && (!svc.upload(key) ==> r.failure == Some(UploadFailed)))
    ensures r.uploaded ==>
      path in disk && disk[path].Tip? &&
      var media := disk[path].frontMatter[MediaUrlKey];
      media.Str? && svc.download(media.s) && svc.parse(media).Some? &&
      var key := GenerateFilename(media.s, path, svc.parse(media).value, svc.md5);
      svc.upload(key) && r.disk == WithMediaUrl(disk, path, R2Url(publicUrl, key))
  {
    if path !in disk then FileStep(false, Some(ReadFailed), disk)
    else match disk[path]
      case Undecodable(reason) => FileStep(false, Some(DecodeFailed(reason)), disk)
      case Tip(fm, body) =>
        if !FieldTruthy(fm, MediaUrlKey) || IsR2Url(fm[MediaUrlKey], publicUrl, svc.parse) then
          FileStep(false, None, disk)
        else
          var media := fm[MediaUrlKey];
          if !media.Str? || !svc.download(media.s) then FileStep(false, Some(DownloadFailed), disk)
          else match svc.parse(media)
            case None => FileStep(false, Some(InvalidUrl), disk)
            case Some(url) =>
              var key := GenerateFilename(media.s, path, url, svc.md5);
              if !svc.upload(key) then FileStep(false, Some(UploadFailed), disk)
              else FileStep(true, None, WithMediaUrl(disk, path, R2Url(publicUrl, key)))
  }

  /** `processFile(operator, filepath)`: read the tip, skip it when its
      media needs no upload, otherwise download, compute the content type
      and the key, upload, and write the new address back. */
  method ProcessFile(filepath: string, disk: Disk, publicUrl: string, svc: Services)
    returns (uploaded: bool, failure: Option<RehomeError>, disk': Disk)
    ensures FileStep(uploaded, failure, disk') == Rehome(filepath, disk, publicUrl, svc)
  {
    if filepath !in disk {
      return false, Some(ReadFailed), disk;
    }
    if disk[filepath].Undecodable? {
      return false, Some(DecodeFailed(disk[filepath].reason)), disk;
    }
    var frontMatter := disk[filepath].frontMatter;
    if !FieldTruthy(frontMatter, MediaUrlKey) {
      return false, None, disk;
    }
    if IsR2Url(frontMatter[MediaUrlKey], publicUrl, svc.parse) {
      return false, None, disk;
    }
    var media := frontMatter[MediaUrlKey];
    if !media.Str? || !svc.download(media.s) {
      return false, Some(DownloadFailed), disk;
    }
    var contentType := ContentType(media, svc.parse);
    if contentType.None? {
      return false, Some(InvalidUrl), disk;
    }
    var filename := GenerateFilename(media.s, filepath, svc.parse(media).value, svc.md5);
    if !svc.upload(filename) {
      return false, Some(UploadFailed), disk;
    }
    var r2Url := R2Url(publicUrl, filename);
    disk' := WithMediaUrl(disk, filepath, r2Url);
    return true, None, disk';
  }

  /** Every key the store hands out stays on the public address's host:
      `new URL(publicUrl + "/" + key)` parses with the same hostname. */
  ghost predicate KeysStayOnHost(parse: UrlParser, publicUrl: string) {
    parse(Str(publicUrl)).Some?
    && forall key :: parse(Str(R2Url(publicUrl, key))).Some?
         && parse(Str(R2Url(publicUrl, key))).value.hostname == parse(Str(publicUrl)).value.hostname
  }

  /** A rehomed tip needs no second upload. */
  lemma RehomedNeedsNoUpload(path: string, disk: Disk, publicUrl: string, svc: Services)
    requires KeysStayOnHost(svc.parse, publicUrl)
    requires Rehome(path, disk, publicUrl, svc).uploaded
    ensures NeedsNoUpload(Rehome(path, disk, publicUrl, svc).disk, path, publicUrl, svc.parse)
  {
    var r := Rehome(path, disk, publicUrl, svc);
    var media := disk[path].frontMatter[MediaUrlKey];
    var key := GenerateFilename(media.s, path, svc.parse(media).value, svc.md5);
    assert Field(r.disk[path].frontMatter, MediaUrlKey) == Some(Str(R2Url(publicUrl, key)));
    assert r.disk[path].frontMatter[MediaUrlKey] == Str(R2Url(publicUrl, key));
    assert svc.parse(Str(R2Url(publicUrl, key))).Some?;
  }

  // ---------------------------------------------------------------------
  // The run (main)
  // ---------------------------------------------------------------------

  /** An entry of `errors`: the file and why it failed. */
  datatype FileError = FileError(file: string, error: RehomeError)

  /** What a run has done after a prefix of the files. */
  datatype Tally = Tally(uploadedCount: nat, errors: seq<FileError>, disk: Disk)

  /** The files processed one after another on one disk, left to right:
      an upload counts, a thrown error is recorded and the run goes on. */
  function RehomeAll(files: seq<string>, disk: Disk, publicUrl: string, svc: Services): (r: Tally)
    ensures r.uploadedCount + |r.errors| <= |files|
    ensures forall e :: e in r.errors ==> e.file in files
  {
    if |files| == 0 then Tally(0, [], disk)
    else
      var init := files[..|files| - 1];
      var before := RehomeAll(init, disk, publicUrl, svc);
      var file := files[|files| - 1];
      assert forall e :: e in before.errors ==> e.file in files by {
        assert forall x :: x in init ==> x in files;
      }
      Record(before, file, Rehome(file, before.disk, publicUrl, svc))
  }

  /** One more file processed: an upload is counted, a thrown error is
      appended to the list, and the disk is the one the file left. */
  function Record(t: Tally, file: string, step: FileStep): (r: Tally)
    requires step.uploaded ==> step.failure.None?
    ensures r.uploadedCount + |r.errors| <= t.uploadedCount + |t.errors| + 1
    ensures r.disk == step.disk
  {
    Tally(t.uploadedCount + (if step.uploaded then 1 else 0),
          t.errors + (if step.failure.Some? then [FileError(file, step.failure.value)] else []),
          step.disk)
  }

  /** `main`'s loop: each file in turn, an upload counted, a thrown error
      recorded with its file and the loop going on. */
  method ProcessAll(files: seq<string>, disk: Disk, publicUrl: string, svc: Services)
    returns (uploadedCount: nat, errors: seq<FileError>, disk': Disk)
    ensures Tally(uploadedCount, errors, disk') == RehomeAll(files, disk, publicUrl, svc)
  {
    uploadedCount := 0;
    errors := [];
    disk' := disk;
    for i := 0 to |files|
      invariant Tally(uploadedCount, errors, disk') == RehomeAll(files[..i], disk, publicUrl, svc)
    {
      assert files[..i + 1][..i] == files[..i];
      ghost var before := Tally(uploadedCount, errors, disk');
      var file := files[i];
      var wasUploaded, failure;
      wasUploaded, failure, disk' := ProcessFile(file, disk', publicUrl, svc);
      ghost var step := FileStep(wasUploaded, failure, disk');
      assert step.uploaded ==> step.failure.None?;
      ghost var after := Record(before, file, step);
      if failure.Some? {
        errors := errors + [FileError(file, failure.value)];
        assert !wasUploaded;
      } else if wasUploaded {
        uploadedCount := uploadedCount + 1;
      }
      assert uploadedCount == after.uploadedCount && errors == after.errors && disk' == after.disk;
    }
    assert files[..|files|] == files;
  }

  /** `main`. Missing configuration ends the run with status 1 before any
      file is read; otherwise every changed file is processed in order, and
      the status is 1 exactly when some file failed. */
  method Run(env: map<string, string>, disk: Disk, svc: Services)
    returns (uploadedCount: nat, errors: seq<FileError>, disk': Disk, exitCode: int)
    ensures MissingVars(RequiredVars, env) != [] ==>
      exitCode == 1 && uploadedCount == 0 && errors == [] && disk' == disk
    ensures MissingVars(RequiredVars, env) == [] ==>
      Tally(uploadedCount, errors, disk') == RehomeAll(ChangedFiles(env), disk, EnvValue(env, PublicUrlVar), svc)
      && exitCode == (if errors == [] then 0 else 1)
  {
    var missing := ValidateEnv(env);
    if |missing| > 0 {
      return 0, [], disk, 1;
    }
    var publicUrl := EnvValue(env, PublicUrlVar);
    var changedFiles := ChangedFiles(env);
    if |changedFiles| == 0 {
      return 0, [], disk, 0;
    }
    uploadedCount, errors, disk' := ProcessAll(changedFiles, disk, publicUrl, svc);
    exitCode := if |errors| > 0 then 1 else 0;
  }

  /** A rehomed file needs no upload, and processing one path keeps every
      other path that needed none in that state. */
  lemma RehomeKeepsSettled(path: string, disk: Disk, publicUrl: string, svc: Services)
    requires KeysStayOnHost(svc.parse, publicUrl)
    requires Rehome(path, disk, publicUrl, svc).failure.None?
    ensures NeedsNoUpload(Rehome(path, disk, publicUrl, svc).disk, path, publicUrl, svc.parse)
    ensures forall q :: NeedsNoUpload(disk, q, publicUrl, svc.parse) ==>
      NeedsNoUpload(Rehome(path, disk, publicUrl, svc).disk, q, publicUrl, svc.parse)
  {
    var r := Rehome(path, disk, publicUrl, svc);
    if r.uploaded {
      RehomedNeedsNoUpload(path, disk, publicUrl, svc);
      forall q | NeedsNoUpload(disk, q, publicUrl, svc.parse)
        ensures NeedsNoUpload(r.disk, q, publicUrl, svc.parse)
      {
        if q != path {
          assert r.disk[q] == disk[q];
        }
      }
    }
  }

  /** A run that reported no error leaves every file it named needing no
      upload. */
  lemma {:induction false} CleanRunSettles(files: seq<string>, disk: Disk, publicUrl: string, svc: Services)
    requires KeysStayOnHost(svc.parse, publicUrl)
    requires RehomeAll(files, disk, publicUrl, svc).errors == []
    ensures forall k :: 0 <= k < |files| ==>
      NeedsNoUpload(RehomeAll(files, disk, publicUrl, svc).disk, files[k], publicUrl, svc.parse)
  {
    if |files| > 0 {
      var init := files[..|files| - 1];
      var before := RehomeAll(init, disk, publicUrl, svc);
      var step := Rehome(files[|files| - 1], before.disk, publicUrl, svc);
      assert before.errors == [] && step.failure.None?;
      CleanRunSettles(init, disk, publicUrl, svc);
      RehomeKeepsSettled(files[|files| - 1], before.disk, publicUrl, svc);
      assert forall k :: 0 <= k < |init| ==> files[k] == init[k];
    }
  }

  /** A run over files that need no upload uploads nothing, fails nowhere
      and changes nothing. */
  lemma {:induction false} SettledRunIsNoop(files: seq<string>, disk: Disk, publicUrl: string, svc: Services)
    requires forall k :: 0 <= k < |files| ==> NeedsNoUpload(disk, files[k], publicUrl, svc.parse)
    ensures RehomeAll(files, disk, publicUrl, svc) == Tally(0, [], disk)
  {
    if |files| > 0 {
      var init := files[..|files| - 1];
      assert forall k :: 0 <= k < |init| ==> init[k] == files[k];
      SettledRunIsNoop(init, disk, publicUrl, svc);
      assert NeedsNoUpload(disk, files[|files| - 1], publicUrl, svc.parse);
    }
  }

  /** Idempotence of the run: after a run without errors, a second run over
      the same files uploads nothing, reports nothing and changes no file. */
  lemma SecondRunIsNoop(files: seq<string>, disk: Disk, publicUrl: string, svc: Services)
    requires KeysStayOnHost(svc.parse, publicUrl)
    requires RehomeAll(files, disk, publicUrl, svc).errors == []
    ensures var first := RehomeAll(files, disk, publicUrl, svc);
      RehomeAll(files, first.disk, publicUrl, svc) == Tally(0, [], first.disk)
  {
    CleanRunSettles(files, disk, publicUrl, svc);
    SettledRunIsNoop(files, RehomeAll(files, disk, publicUrl, svc).disk, publicUrl, svc);
  }
}
