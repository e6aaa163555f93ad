/** The metadata enricher (scripts/auto-add-metadata.js): for each changed
    tip it fills `publishedAt`, `author` and `authorUrl` when they are
    missing, always sets `updatedAt` to the current date, records one change
    message per field it set, and writes the file back only when something
    changed. The current date is a parameter; the `git log` lookup of the
    author e-mail of the latest commit that touched the file is a function from path to its output, `None`
    when the command fails. */
module AutoAddMetadata {
  import opened Strings
  import opened Tips

  // ---------------------------------------------------------------------
  // E-mail to username (getGitAuthor) and profile URL (getAuthorUrl)
  // ---------------------------------------------------------------------

  const NoreplyDomain := "@users.noreply.github.com"

  /** The part of a GitHub no-reply address that
      `^(\d+\+)?([^@]+)@users\.noreply\.github\.com$` matches before the
      domain: at least one character and no '@'. `None` when the address
      does not match. */
  function NoreplyLocal(email: string): (r: Option<string>)
    ensures r.Some? ==> r.value != "" && '@' !in r.value && email == r.value + NoreplyDomain
    ensures r.None? ==>
      (!HasSuffix(email, NoreplyDomain) || |email| == |NoreplyDomain| || '@' in email[..|email| - |NoreplyDomain|])
  {
    var n := |email| - |NoreplyDomain|;
    if HasSuffix(email, NoreplyDomain) && n > 0 && '@' !in email[..n] then
      assert email == email[..n] + email[n..];
      Some(email[..n])
    else None
  }

  /** Length of the longest run of ASCII digits at the start of `s` (`\d`
      without the `u` flag). */
  function DigitRun(s: string): (n: nat)
    ensures n <= |s|
    ensures forall i :: 0 <= i < n ==> IsDigit(s[i])
    ensures n < |s| ==> !IsDigit(s[n])
  {
    if |s| == 0 || !IsDigit(s[0]) then 0
    else
      var k := DigitRun(s[1..]);
      assert forall i :: 1 <= i < k + 1 ==> s[i] == s[1..][i - 1];
      k + 1
  }

  /** The second capture group: the optional `\d+\+` prefix is taken when it
      is there and something is left after it. */
  function NoreplyUser(local: string): (user: string)
    requires local != ""
    ensures user != ""
    ensures HasSuffix(local, user)
    ensures var k := |local| - |user|;
      k == 0 || (k >= 2 && local[k - 1] == '+' && forall i :: 0 <= i < k - 1 ==> IsDigit(local[i]))
  {
    var n := DigitRun(local);
    if 1 <= n && n + 1 < |local| && local[n] == '+' then local[n + 1..] else local
  }

  /** `getGitAuthor` on the trimmed `git log` output: the no-reply username,
      else the text before the first '@', else `null`. */
  function UsernameFromEmail(email: string): (r: Option<string>)
    ensures r.None? <==> email == "" || email[0] == '@'
    ensures r.Some? ==> r.value != "" && '@' !in r.value
    ensures NoreplyLocal(email).None? && r.Some? ==>
      HasPrefix(email, r.value) && (|r.value| == |email| || email[|r.value|] == '@')
    ensures NoreplyLocal(email).Some? ==> r.Some? && HasSuffix(NoreplyLocal(email).value, r.value)
  {
    var local := NoreplyLocal(email);
    if local.Some? then
      assert email[0] == local.value[0];
      Some(NoreplyUser(local.value))
    else
      var head := Split(email, '@')[0];
      SplitHead(email, '@');
      if head == "" then None else Some(head)
  }

  /** Numbered no-reply addresses give the name after the '+'. */
  lemma NumberedNoreplyAddress(id: string, user: string)
    requires id != "" && forall i :: 0 <= i < |id| ==> IsDigit(id[i])
    requires user != "" && '@' !in user
    ensures UsernameFromEmail(id + "+" + user + NoreplyDomain) == Some(user)
  {
    var email := id + "+" + user + NoreplyDomain;
    var local := id + "+" + user;
    assert email == local + NoreplyDomain;
    assert email[..|email| - |NoreplyDomain|] == local;
    assert '@' !in local by {
      forall i | 0 <= i < |local| ensures local[i] != '@' {
        if i > |id| {
          assert local[i] == user[i - |id| - 1];
        }
      }
    }
    assert NoreplyLocal(email) == Some(local);
    DigitRunOfId(id, user);
    assert local[|id| + 1..] == user;
  }

  lemma DigitRunOfId(id: string, user: string)
    requires forall i :: 0 <= i < |id| ==> IsDigit(id[i])
    ensures DigitRun(id + "+" + user) == |id|
    decreases |id|
  {
    var s := id + "+" + user;
    if |id| > 0 {
      assert s[1..] == id[1..] + "+" + user;
      DigitRunOfId(id[1..], user);
    } else {
      assert s[0] == '+';
    }
  }

  /** Plain no-reply addresses give the whole name. */
  lemma PlainNoreplyAddress(user: string)
    requires user != "" && '@' !in user && '+' !in user
    ensures UsernameFromEmail(user + NoreplyDomain) == Some(user)
  {
    var email := user + NoreplyDomain;
    assert email[..|email| - |NoreplyDomain|] == user;
    assert NoreplyLocal(email) == Some(user);
    var n := DigitRun(user);
    if n < |user| {
      assert user[n] in user;
    }
  }

  /** Any other address gives the text before its first '@'. */
  lemma OtherAddress(name: string, rest: string)
    requires name != "" && '@' !in name
    requires NoreplyLocal(name + "@" + rest).None?
    ensures UsernameFromEmail(name + "@" + rest) == Some(name)
  {
    var email := name + "@" + rest;
    assert email[..|name|] == name;
    assert email[|name|] == '@';
  }

  /** The `git log` step: no output when the command fails. */
  function GitAuthor(gitEmail: Option<string>): (r: Option<string>)
    ensures gitEmail.None? ==> r.None?
    ensures r.Some? ==> r.value != "" && '@' !in r.value
    ensures gitEmail.Some? ==> r == UsernameFromEmail(Trim(gitEmail.value))
  {
    match gitEmail
    case None => None
    case Some(raw) => UsernameFromEmail(Trim(raw))
  }

  const ProfilePrefix := "https://github.com/"

  /** `getAuthorUrl`: no URL for a falsy author, otherwise the profile URL
      of the author's string form. */
  function AuthorUrl(author: Value): (r: Option<string>)
    ensures r.Some? <==> Truthy(author)
    ensures r.Some? ==> HasPrefix(r.value, ProfilePrefix) && r.value[|ProfilePrefix|..] == JsString(author)
  {
    if !Truthy(author) then None
    else
      var url := ProfilePrefix + JsString(author);
      assert url[..|ProfilePrefix|] == ProfilePrefix;
      Some(url)
  }

  // ---------------------------------------------------------------------
  // Enrichment rules (addMetadataToFile), one step per field
  // ---------------------------------------------------------------------

  /** The front matter as it is being updated, and the change messages so
      far. */
  datatype Progress = Progress(fm: FrontMatter, changes: seq<string>)

  /** The change message for a field the enricher fills. */
  function AddedMessage(key: string, value: string): string {
    "Added " + key + ": " + value
  }

  /** The change message for `updatedAt`, which is touched rather than
      filled. */
  function UpdatedMessage(key: string, value: string): string {
    "Updated " + key + ": " + value
  }

  function FillPublished(p: Progress, today: string): Progress {
    if FieldTruthy(p.fm, "publishedAt") then p
    else Progress(p.fm["publishedAt" := Str(today)], p.changes + [AddedMessage("publishedAt", today)])
  }

  function TouchUpdated(p: Progress, today: string): Progress {
    if "updatedAt" in p.fm && p.fm["updatedAt"] == Str(today) then p
    else Progress(p.fm["updatedAt" := Str(today)], p.changes + [UpdatedMessage("updatedAt", today)])
  }

  function FillAuthor(p: Progress, author: Option<string>): Progress {
    if FieldTruthy(p.fm, "author") || author.None? then p
    else Progress(p.fm["author" := Str(author.value)], p.changes + [AddedMessage("author", author.value)])
  }

  function FillAuthorUrl(p: Progress): Progress {
    if FieldTruthy(p.fm, "authorUrl") || !FieldTruthy(p.fm, "author") then p
    else
      var url := AuthorUrl(p.fm["author"]).value;
      Progress(p.fm["authorUrl" := Str(url)], p.changes + [AddedMessage("authorUrl", url)])
  }

  function Enrich(fm: FrontMatter, today: string, author: Option<string>): Progress {
    FillAuthorUrl(FillAuthor(TouchUpdated(FillPublished(Progress(fm, []), today), today), author))
  }

  /** The four fields the enricher may set. */
  const EnrichedKeys: set<string> := {"publishedAt", "updatedAt", "author", "authorUrl"}

  /** The enriched front matter, field by field: an existing truthy
      `publishedAt`, `author` or `authorUrl` is never overwritten; a falsy or
      missing one is filled (the author only from a username the lookup
      found, the URL only when there is an author); `updatedAt` is always
      today; no other field changes. */
  function Enriched(fm: FrontMatter, today: string, author: Option<string>): (r: FrontMatter)
    ensures FieldTruthy(fm, "publishedAt") ==> Field(r, "publishedAt") == Field(fm, "publishedAt")
    ensures !FieldTruthy(fm, "publishedAt") ==> "publishedAt" in r && r["publishedAt"] == Str(today)
    ensures "updatedAt" in r && r["updatedAt"] == Str(today)
    ensures FieldTruthy(fm, "author") ==> Field(r, "author") == Field(fm, "author")
    ensures !FieldTruthy(fm, "author") && author.Some? ==> "author" in r && r["author"] == Str(author.value)
    ensures !FieldTruthy(fm, "author") && author.None? ==> Field(r, "author") == Field(fm, "author")
    ensures FieldTruthy(fm, "authorUrl") ==> Field(r, "authorUrl") == Field(fm, "authorUrl")
    ensures !FieldTruthy(fm, "authorUrl") && FieldTruthy(r, "author") ==>
      "authorUrl" in r && r["authorUrl"] == Str(ProfilePrefix + JsString(r["author"]))
    ensures !FieldTruthy(fm, "authorUrl") && !FieldTruthy(r, "author") ==> Field(r, "authorUrl") == Field(fm, "authorUrl")
    ensures forall k :: k !in EnrichedKeys ==> Field(r, k) == Field(fm, k)
  {
    Enrich(fm, today, author).fm
  }

  /** The change messages, one per field the enricher sets, in the order
      publishedAt, updatedAt, author, authorUrl: a falsy `publishedAt` is
      filled with today; an `updatedAt` other than today is touched; a falsy
      author is filled with a found username; a falsy `authorUrl` is filled
      with the profile URL of the author the file then has. */
  function ChangeLog(fm: FrontMatter, today: string, author: Option<string>): (r: seq<string>)
    ensures |r| <= 4
    ensures var e := Enriched(fm, today, author);
      r == (if FieldTruthy(fm, "publishedAt") then [] else [AddedMessage("publishedAt", today)])
        + (if Field(fm, "updatedAt") == Some(Str(today)) then [] else [UpdatedMessage("updatedAt", today)])
        + (if FieldTruthy(fm, "author") || author.None? then [] else [AddedMessage("author", author.value)])
        + (if FieldTruthy(fm, "authorUrl") || !FieldTruthy(e, "author") then []
           else [AddedMessage("authorUrl", ProfilePrefix + JsString(e["author"]))])
  {
    Enrich(fm, today, author).changes
  }

  /** A change is reported exactly when the front matter changes, given a
      non-empty date (the script's date is always "YYYY-MM-DD") and a
      non-empty username, as the lookup always yields. */
  lemma ChangesIffDifferent(fm: FrontMatter, today: string, author: Option<string>)
    requires today != ""
    requires author.Some? ==> author.value != ""
    ensures ChangeLog(fm, today, author) != [] <==> Enriched(fm, today, author) != fm
  {
    var p0 := Progress(fm, []);
    var p1 := FillPublished(p0, today);
    var p2 := TouchUpdated(p1, today);
    var p3 := FillAuthor(p2, author);
    var p4 := FillAuthorUrl(p3);
    var e := p4.fm;
    if p1 != p0 {
      assert e["publishedAt"] == Str(today);
      assert !FieldTruthy(fm, "publishedAt");
    } else if p2 != p1 {
      assert e["updatedAt"] == Str(today);
    } else if p3 != p2 {
      assert e["author"] == Str(author.value);
      assert !FieldTruthy(fm, "author");
    } else if p4 != p3 {
      var url := AuthorUrl(p3.fm["author"]).value;
      assert e["authorUrl"] == Str(url);
      assert url != "" && !FieldTruthy(fm, "authorUrl");
    }
  }

  /** Enriching what was just enriched, with the same date and lookup,
      changes nothing and reports nothing. */
  lemma EnrichedIdempotent(fm: FrontMatter, today: string, author: Option<string>)
    requires today != ""
    requires author.Some? ==> author.value != ""
    ensures Enriched(Enriched(fm, today, author), today, author) == Enriched(fm, today, author)
    ensures ChangeLog(Enriched(fm, today, author), today, author) == []
  {
    var e := Enriched(fm, today, author);
    assert FieldTruthy(e, "publishedAt");
    assert !FieldTruthy(e, "author") ==> author.None?;
    assert FieldTruthy(e, "author") ==> FieldTruthy(e, "authorUrl");
  }

  lemma NumberedNoreplyExample()
    ensures UsernameFromEmail("123456+alice@users.noreply.github.com") == Some("alice")
  {
    assert "123456" + "+" + "alice" == "123456+alice";
    assert "123456+alice@users.noreply.github.com" == "123456+alice" + NoreplyDomain;
    NumberedNoreplyAddress("123456", "alice");
  }

  lemma PlainNoreplyExample(email: string)
    requires email == "alice@users.noreply.github.com"
    ensures UsernameFromEmail(email) == Some("alice")
  {
    var user := "alice";
    assert email == user + NoreplyDomain;
    assert '+' !in user && '@' !in user;
    PlainNoreplyAddress(user);
  }

  // ---------------------------------------------------------------------
  // One file (addMetadataToFile) and the run (main)
  // ---------------------------------------------------------------------

  /** `addMetadataToFile` on decoded front matter: the fields are updated in
      the script's order, and `modified` is set exactly when a change message
      is pushed. The lookup runs only when the author is missing. */
  method AddMetadata(frontMatter: FrontMatter, today: string, gitEmail: Option<string>)
    returns (fm: FrontMatter, modified: bool, changes: seq<string>)
    ensures fm == Enriched(frontMatter, today, GitAuthor(gitEmail))
    ensures changes == ChangeLog(frontMatter, today, GitAuthor(gitEmail))
    ensures modified <==> changes != []
    ensures today != "" ==> (modified <==> fm != frontMatter)
  {
    fm := frontMatter;
    modified := false;
    changes := [];
    if !FieldTruthy(fm, "publishedAt") {
      fm := fm["publishedAt" := Str(today)];
      modified := true;
      changes := changes + [AddedMessage("publishedAt", today)];
    }
    ghost var p1 := FillPublished(Progress(frontMatter, []), today);
    assert Progress(fm, changes) == p1 && (modified <==> changes != []);
    var newUpdatedAt := today;
    if !("updatedAt" in fm && fm["updatedAt"] == Str(newUpdatedAt)) {
      fm := fm["updatedAt" := Str(newUpdatedAt)];
      modified := true;
      changes := changes + [UpdatedMessage("updatedAt", newUpdatedAt)];
    }
    ghost var p2 := TouchUpdated(p1, today);
    assert Progress(fm, changes) == p2 && (modified <==> changes != []);
    if !FieldTruthy(fm, "author") {
      var author := GitAuthor(gitEmail);
      if author.Some? {
        fm := fm["author" := Str(author.value)];
        modified := true;
        changes := changes + [AddedMessage("author", author.value)];
      }
    }
    ghost var p3 := FillAuthor(p2, GitAuthor(gitEmail));
    assert Progress(fm, changes) == p3 && (modified <==> changes != []);
    if !FieldTruthy(fm, "authorUrl") && FieldTruthy(fm, "author") {
      var authorUrl := AuthorUrl(fm["author"]);
      if authorUrl.Some? {
        fm := fm["authorUrl" := Str(authorUrl.value)];
        modified := true;
        changes := changes + [AddedMessage("authorUrl", authorUrl.value)];
      }
    }
    assert Progress(fm, changes) == FillAuthorUrl(p3);
    if today != "" {
      ChangesIffDifferent(frontMatter, today, GitAuthor(gitEmail));
    }
  }

  /** What processing one path returns and leaves on disk. */
  datatype FileStep = FileStep(modified: bool, disk: Disk)

  /** The effect of `addMetadataToFile` on the disk: a missing or undecodable
      file is reported as unmodified and left alone; otherwise the enriched
      front matter is written back, with the same body, exactly when a
      change was recorded. */
  function EnrichFile(path: string, disk: Disk, today: string, gitLog: string -> Option<string>): FileStep
  {
    if path !in disk || disk[path].Undecodable? then FileStep(false, disk)
    else
      var fm, author := disk[path].frontMatter, GitAuthor(gitLog(path));
      var modified := ChangeLog(fm, today, author) != [];
      FileStep(modified, if modified then disk[path := Tip(Enriched(fm, today, author), disk[path].body)] else disk)
  }

  /** `addMetadataToFile(filepath)`: read, enrich, and write back only when
      modified. */
  method AddMetadataToFile(filepath: string, disk: Disk, today: string, gitLog: string -> Option<string>)
    returns (modified: bool, disk': Disk)
    ensures FileStep(modified, disk') == EnrichFile(filepath, disk, today, gitLog)
  {
    if filepath !in disk || disk[filepath].Undecodable? {
      return false, disk;
    }
    var frontMatter, body := disk[filepath].frontMatter, disk[filepath].body;
    var fm, changes;
    fm, modified, changes := AddMetadata(frontMatter, today, gitLog(filepath));
    disk' := disk;
    if modified {
      disk' := disk'[filepath := Tip(fm, body)];
    }
  }

  /** What a run has done after a prefix of the files: how many were
      modified, and the disk. */
  datatype Batch = Batch(modifiedCount: nat, disk: Disk)

  /** The files processed one after another on one disk, left to right. */
  function EnrichAll(files: seq<string>, disk: Disk, today: string, gitLog: string -> Option<string>): (r: Batch)
    ensures r.modifiedCount <= |files|
  {
    if |files| == 0 then Batch(0, disk)
    else
      var before := EnrichAll(files[..|files| - 1], disk, today, gitLog);
      var step := EnrichFile(files[|files| - 1], before.disk, today, gitLog);
      Batch(before.modifiedCount + (if step.modified then 1 else 0), step.disk)
  }

  /** One more file on top of a prefix. */
  lemma EnrichAllStep(files: seq<string>, i: nat, disk: Disk, today: string, gitLog: string -> Option<string>)
    requires i < |files|
    ensures var before := EnrichAll(files[..i], disk, today, gitLog);
      var step := EnrichFile(files[i], before.disk, today, gitLog);
      EnrichAll(files[..i + 1], disk, today, gitLog) ==
        Batch(before.modifiedCount + (if step.modified then 1 else 0), step.disk)
  {
    assert files[..i + 1][..i] == files[..i];
  }

  /** `main`: every changed file is processed in order on one disk; the
      count is the number of files that returned true; the exit code is
      always 0. */
  method Run(env: map<string, string>, disk: Disk, today: string, gitLog: string -> Option<string>)
    returns (modifiedCount: nat, disk': Disk, exitCode: int)
    ensures var files := ChangedFiles(env);
      Batch(modifiedCount, disk') == EnrichAll(files, disk, today, gitLog)
    ensures exitCode == 0
  {
    var changedFiles := ChangedFiles(env);
    if |changedFiles| == 0 {
      return 0, disk, 0;
    }
    modifiedCount := 0;
    disk' := disk;
    for i := 0 to |changedFiles|
      invariant Batch(modifiedCount, disk') == EnrichAll(changedFiles[..i], disk, today, gitLog)
    {
      EnrichAllStep(changedFiles, i, disk, today, gitLog);
      var modified;
      modified, disk' := AddMetadataToFile(changedFiles[i], disk', today, gitLog);
      if modified {
        modifiedCount := modifiedCount + 1;
      }
    }
    assert changedFiles[..|changedFiles|] == changedFiles;
    exitCode := 0;
  }

  /** Processing `path` again would leave it as it is: it is missing,
      undecodable, or its front matter needs no change. */
  ghost predicate Settled(disk: Disk, path: string, today: string, gitLog: string -> Option<string>) {
    path !in disk || disk[path].Undecodable?
    || ChangeLog(disk[path].frontMatter, today, GitAuthor(gitLog(path))) == []
  }

  /** Processing a file settles it and unsettles no other file. */
  lemma EnrichFileSettles(path: string, disk: Disk, today: string, gitLog: string -> Option<string>)
    requires today != ""
    ensures Settled(EnrichFile(path, disk, today, gitLog).disk, path, today, gitLog)
    ensures forall q :: Settled(disk, q, today, gitLog) ==> Settled(EnrichFile(path, disk, today, gitLog).disk, q, today, gitLog)
  {
    var step := EnrichFile(path, disk, today, gitLog);
    if step.modified {
      var fm, author := disk[path].frontMatter, GitAuthor(gitLog(path));
      EnrichedIdempotent(fm, today, author);
      assert step.disk[path].frontMatter == Enriched(fm, today, author);
    }
  }

  /** After a run every file it named is settled. */
  lemma {:induction false} EnrichAllSettles(files: seq<string>, disk: Disk, today: string, gitLog: string -> Option<string>)
    requires today != ""
    ensures forall k :: 0 <= k < |files| ==> Settled(EnrichAll(files, disk, today, gitLog).disk, files[k], today, gitLog)
  {
    if |files| > 0 {
      var init := files[..|files| - 1];
      EnrichAllSettles(init, disk, today, gitLog);
      var before := EnrichAll(init, disk, today, gitLog);
      EnrichFileSettles(files[|files| - 1], before.disk, today, gitLog);
      assert forall k :: 0 <= k < |init| ==> files[k] == init[k];
    }
  }

  /** A run over settled files modifies nothing. */
  lemma {:induction false} SettledRunIsNoop(files: seq<string>, disk: Disk, today: string, gitLog: string -> Option<string>)
    requires forall k :: 0 <= k < |files| ==> Settled(disk, files[k], today, gitLog)
    ensures EnrichAll(files, disk, today, gitLog) == Batch(0, disk)
  {
    if |files| > 0 {
      var init := files[..|files| - 1];
      assert forall k :: 0 <= k < |init| ==> init[k] == files[k];
      SettledRunIsNoop(init, disk, today, gitLog);
      assert Settled(disk, files[|files| - 1], today, gitLog);
    }
  }

  /** Idempotence of the whole run: a second run over the same files, on the
      same day and with the same history, modifies no file and counts 0. */
  lemma SecondRunIsNoop(files: seq<string>, disk: Disk, today: string, gitLog: string -> Option<string>)
    requires today != ""
    ensures var first := EnrichAll(files, disk, today, gitLog);
      EnrichAll(files, first.disk, today, gitLog) == Batch(0, first.disk)
  {
    EnrichAllSettles(files, disk, today, gitLog);
    SettledRunIsNoop(files, EnrichAll(files, disk, today, gitLog).disk, today, gitLog);
  }
}
