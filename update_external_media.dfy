/** The external-media toucher: every tip whose `mediaUrl` names a host
    other than the site's own media host gets `updatedAt` set to today's
    date, so that the next media upload picks it up. The tip list (a glob over
    the tips directory), the date and URL parsing are parameters. */
module UpdateExternalMedia {
  import opened Tips

  /** The host `isExternalMediaUrl` treats as the site's own. */
  const OwnMediaHost := "cat.zed.tips"

  const MediaUrlKey := "mediaUrl"
  const UpdatedAtKey := "updatedAt"

  /** `isExternalMediaUrl(url)`: a truthy value that `new URL` accepts and
      whose host is not the site's own; a value it rejects is not external. */
  predicate IsExternalMediaUrl(v: Value, parse: UrlParser)
    ensures !Truthy(v) || parse(v).None? ==> !IsExternalMediaUrl(v, parse)
    ensures Truthy(v) && parse(v).Some? ==>
      (IsExternalMediaUrl(v, parse) <==> parse(v).value.hostname != OwnMediaHost)
  {
    Truthy(v) && parse(v).Some? && parse(v).value.hostname != OwnMediaHost
  }

  /** The guard of `updateTipFile`: `mediaUrl` is truthy and external. */
  predicate NeedsTouch(fm: FrontMatter, parse: UrlParser) {
    FieldTruthy(fm, MediaUrlKey) && IsExternalMediaUrl(fm[MediaUrlKey], parse)
  }

  /** A file as `updateTipFile` leaves it: a tip that needs a touch gets
      `updatedAt` set to `today`; anything else is left as it is. */
  function TouchEntry(e: FileContent, today: string, parse: UrlParser): (r: FileContent)
    ensures r.Tip? <==> e.Tip?
    ensures !(e.Tip? && NeedsTouch(e.frontMatter, parse)) ==> r == e
    ensures e.Tip? && NeedsTouch(e.frontMatter, parse) ==>
      r.body == e.body &&
      r.frontMatter.Keys == e.frontMatter.Keys + {UpdatedAtKey} &&
      Field(r.frontMatter, UpdatedAtKey) == Some(Str(today)) &&
      forall k :: k != UpdatedAtKey ==> Field(r.frontMatter, k) == Field(e.frontMatter, k)
  {
    if e.Tip? && NeedsTouch(e.frontMatter, parse) then
      Tip(e.frontMatter[UpdatedAtKey := Str(today)], e.body)
    else e
  }

  /** Touching does not change whether a tip needs touching: `mediaUrl` is
      left alone. */
  lemma TouchKeepsNeed(e: FileContent, today: string, parse: UrlParser)
    requires e.Tip?
    ensures NeedsTouch(TouchEntry(e, today, parse).frontMatter, parse) == NeedsTouch(e.frontMatter, parse)
  {
    var r := TouchEntry(e, today, parse);
    assert Field(r.frontMatter, MediaUrlKey) == Field(e.frontMatter, MediaUrlKey);
  }

  /** Touching twice on the same day is touching once. */
  lemma TouchIdempotent(e: FileContent, today: string, parse: UrlParser)
    ensures TouchEntry(TouchEntry(e, today, parse), today, parse) == TouchEntry(e, today, parse)
  {
    if e.Tip? && NeedsTouch(e.frontMatter, parse) {
      TouchKeepsNeed(e, today, parse);
      var fm := e.frontMatter;
      assert fm[UpdatedAtKey := Str(today)][UpdatedAtKey := Str(today)] == fm[UpdatedAtKey := Str(today)];
    }
  }

  /** What `updateTipFile` ends in: true, false, or a thrown error (a file
      that is missing or that the front-matter codec rejects). */
  datatype Outcome = Updated | Skipped | Failed

  datatype TouchStep = TouchStep(outcome: Outcome, disk: Disk)

  /** `path` is read and needs a touch. */
  predicate Candidate(disk: Disk, path: string, parse: UrlParser) {
    path in disk && disk[path].Tip? && NeedsTouch(disk[path].frontMatter, parse)
  }

  /** The effect of `updateTipFile` on one path: a candidate is rewritten with
      today's `updatedAt`, and no other file or field changes. */
  function TouchFile(path: string, disk: Disk, today: string, parse: UrlParser): (r: TouchStep)
    ensures r.outcome == Failed <==> path !in disk || disk[path].Undecodable?
    ensures r.outcome == Updated <==> Candidate(disk, path, parse)
    ensures r.outcome == Updated ==> r.disk == disk[path := TouchEntry(disk[path], today, parse)]
    ensures r.outcome != Updated ==> r.disk == disk
  {
    if path !in disk || disk[path].Undecodable? then TouchStep(Failed, disk)
    else if !NeedsTouch(disk[path].frontMatter, parse) then TouchStep(Skipped, disk)
    else TouchStep(Updated, disk[path := TouchEntry(disk[path], today, parse)])
  }

  /** `updateTipFile(filepath)`: read, check the media URL, set `updatedAt`
      and write back. */
  method UpdateTipFile(filepath: string, disk: Disk, today: string, parse: UrlParser)
    returns (outcome: Outcome, disk': Disk)
    ensures TouchStep(outcome, disk') == TouchFile(filepath, disk, today, parse)
  {
    if filepath !in disk || disk[filepath].Undecodable? {
      return Failed, disk;
    }
    var frontMatter, body := disk[filepath].frontMatter, disk[filepath].body;
    if !FieldTruthy(frontMatter, MediaUrlKey) || !IsExternalMediaUrl(frontMatter[MediaUrlKey], parse) {
      return Skipped, disk;
    }
    frontMatter := frontMatter[UpdatedAtKey := Str(today)];
    disk' := disk[filepath := Tip(frontMatter, body)];
    return Updated, disk';
  }

  /** What `main` has done after a prefix of the tip files. */
  datatype Summary = Summary(updatedCount: nat, updatedFiles: seq<string>, disk: Disk)

  /** The files processed one after another on one disk, left to right;
      an update is counted and its file listed, a thrown error is logged and
      the loop goes on. */
  function TouchAll(files: seq<string>, disk: Disk, today: string, parse: UrlParser): (r: Summary)
  {
    if |files| == 0 then Summary(0, [], disk)
    else
      var before := TouchAll(files[..|files| - 1], disk, today, parse);
      var file := files[|files| - 1];
      var step := TouchFile(file, before.disk, today, parse);
      if step.outcome == Updated then
        Summary(before.updatedCount + 1, before.updatedFiles + [file], step.disk)
      else
        Summary(before.updatedCount, before.updatedFiles, step.disk)
  }

  /** The tip files that need a touch on `disk`, in order. */
  function Candidates(files: seq<string>, disk: Disk, parse: UrlParser): (r: seq<string>)
    ensures IsSubsequence(r, files)
  {
    if |files| == 0 then []
    else
      var init := files[..|files| - 1];
      var last := files[|files| - 1];
      var before := Candidates(init, disk, parse);
      assert init + [last] == files;
      if Candidate(disk, last, parse) then
        SubsequenceSnoc(before, init, last);
        before + [last]
      else
        SubsequenceExtend(before, init, last);
        before
  }

  /** `main` on the list the glob yields. */
  method Run(tipFiles: seq<string>, disk: Disk, today: string, parse: UrlParser)
    returns (updatedCount: nat, updatedFiles: seq<string>, disk': Disk)
    ensures Summary(updatedCount, updatedFiles, disk') == TouchAll(tipFiles, disk, today, parse)
  {
    updatedCount := 0;
    updatedFiles := [];
    disk' := disk;
    for i := 0 to |tipFiles|
      invariant Summary(updatedCount, updatedFiles, disk') == TouchAll(tipFiles[..i], disk, today, parse)
    {
      assert tipFiles[..i + 1][..i] == tipFiles[..i];
      var file := tipFiles[i];
      var outcome;
      outcome, disk' := UpdateTipFile(file, disk', today, parse);
      if outcome == Updated {
        updatedCount := updatedCount + 1;
        updatedFiles := updatedFiles + [file];
      }
    }
    assert tipFiles[..|tipFiles|] == tipFiles;
  }

  /** The disk after a run, file by file: each listed path is touched once
      whatever its position or repetition, every other path is unchanged, and
      the listed files are exactly the candidates, counted. */
  lemma {:induction false} TouchAllPointwise(files: seq<string>, disk: Disk, today: string, parse: UrlParser)
    ensures var r := TouchAll(files, disk, today, parse);
      r.disk.Keys == disk.Keys &&
      (forall q :: q in disk ==> r.disk[q] == if q in files then TouchEntry(disk[q], today, parse) else disk[q]) &&
      r.updatedFiles == Candidates(files, disk, parse) &&
      r.updatedCount == |r.updatedFiles|
  {
    if |files| > 0 {
      var init := files[..|files| - 1];
      var last := files[|files| - 1];
      assert init + [last] == files;
      TouchAllPointwise(init, disk, today, parse);
      var before := TouchAll(init, disk, today, parse);
      var r := TouchAll(files, disk, today, parse);
      if last in disk && disk[last].Tip? {
        TouchKeepsNeed(disk[last], today, parse);
        TouchIdempotent(disk[last], today, parse);
      }
      assert Candidate(before.disk, last, parse) == Candidate(disk, last, parse);
      forall q | q in disk
        ensures r.disk[q] == if q in files then TouchEntry(disk[q], today, parse) else disk[q]
      {
        assert q in files <==> q in init || q == last;
      }
    }
  }

  /** The candidates depend only on what each file needs. */
  lemma {:induction false} CandidatesAgree(files: seq<string>, d1: Disk, d2: Disk, parse: UrlParser)
    requires forall q :: Candidate(d1, q, parse) == Candidate(d2, q, parse)
    ensures Candidates(files, d1, parse) == Candidates(files, d2, parse)
  {
    if |files| > 0 {
      CandidatesAgree(files[..|files| - 1], d1, d2, parse);
    }
  }

  /** Running twice on the same day is running once: the second run lists
      and counts the same files and leaves the disk as the first run did. */
  lemma SecondRunSameAsFirst(files: seq<string>, disk: Disk, today: string, parse: UrlParser)
    ensures var first := TouchAll(files, disk, today, parse);
      TouchAll(files, first.disk, today, parse) == first
  {
    var first := TouchAll(files, disk, today, parse);
    var second := TouchAll(files, first.disk, today, parse);
    TouchAllPointwise(files, disk, today, parse);
    TouchAllPointwise(files, first.disk, today, parse);
    forall q ensures Candidate(first.disk, q, parse) == Candidate(disk, q, parse) {
      if q in disk && q in files && disk[q].Tip? {
        TouchKeepsNeed(disk[q], today, parse);
      }
    }
    CandidatesAgree(files, first.disk, disk, parse);
    forall q | q in first.disk ensures second.disk[q] == first.disk[q] {
      if q in files {
        TouchIdempotent(disk[q], today, parse);
      }
    }
    assert second.disk == first.disk;
  }
}
