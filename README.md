# Tip maintenance scripts, modelled in Dafny

The repository keeps short markdown "tips". Each tip is YAML front matter plus a markdown body. Four Node scripts maintain them, and each is one Dafny module:

- **Tip validator** (`ValidateTips`, `scripts/validate-tips.js`). It picks the tip paths out of the command-line arguments and checks three things, stopping at the first failure:
  - the file name matches `^[a-z0-9]+(-[a-z0-9]+)*\.(md|mdx)$`;
  - the file can be read and decoded;
  - the front matter passes the field schema.

  It reports every schema issue as a `- path: message` line and exits with 1 exactly when some file is invalid.
- **Metadata enricher** (`AutoAddMetadata`, `scripts/auto-add-metadata.js`). It fills `publishedAt`, `author` and `authorUrl` when they are missing or falsy, and always brings `updatedAt` to today. It logs one change message per field it sets, and writes the file back only when something changed. The author comes from the author e-mail of the latest commit that touched the file; a GitHub no-reply address gives the username.
- **Media rehomer** (`UploadMedia`, `scripts/upload-media-to-r2.js`). It first checks the R2 configuration. Then, for every changed tip whose `mediaUrl` is not already on the bucket's host, it:
  - downloads the media;
  - stores it under the key `<stem>-<first 8 hex digits of md5(url)><ext>`;
  - points `mediaUrl` at `R2_PUBLIC_URL/<key>`.

  Errors are collected per file, and the exit status is 1 when there are any.
- **External-media toucher** (`UpdateExternalMedia`, `scripts/update-external-media-tips.js`). It sets `updatedAt` to today on every tip whose `mediaUrl` names a host other than `cat.zed.tips`. It counts and lists those tips.

Shared modules:
- `Strings`: the JavaScript string operations the scripts use (`split`, `join`, `trim` and `trim().split(/\s+/).filter(Boolean)`), plus integer rendering and ASCII lower-casing.
- `Tips`: front-matter values, JavaScript truthiness and string conversion, the disk, and URL parsing as a parameter.
- `Paths`: Node's POSIX `path.basename` and `path.extname`. The `..` case is included, and so is the rule that a leading dot does not start an extension.

The disk is a map from path to decoded file, so the YAML codec is taken as given. It is threaded through each batch loop, so a path named twice sees its own earlier write. Each script's imperative parts are methods that use local variables, as the scripts do:
- `addMetadataToFile`'s field updates;
- `validateEnv`'s pushes;
- `processFile`'s rewrite;
- `updateTipFile`'s rewrite;
- every `main` loop.

Each such method is proved equal to a pure function. The properties are proved about those functions.

Things the model makes explicit:
- `generateFilename` falls back to the extension `.jpg` when the URL path has none. `getContentType` then gives `application/octet-stream`, so the key and the content type disagree (`UploadMedia.ExtensionlessKey`). The content type is computed, but `uploadToR2` never passes it to the store.
- The toucher's own host is the constant `cat.zed.tips`, not the host of `R2_PUBLIC_URL`. A second run on the same day therefore rewrites exactly the same tips again. It does not do nothing, but its result is the same as the first run's (`UpdateExternalMedia.SecondRunSameAsFirst`).
- Enrichment is idempotent across a whole run: a second run with the same date and lookup changes nothing (`AutoAddMetadata.SecondRunIsNoop`). Rehoming is idempotent only after a run without errors, and only when every key's public address parses with the bucket's hostname (`KeysStayOnHost`). A second run then changes nothing (`UploadMedia.SecondRunIsNoop`). After a failed download or upload, a second run retries that file and may upload it.

Behaviour worth noting:
- The rehomer never checks whether an object already exists in the store. It uploads every time.
- The enricher exits with 0 even when files fail to decode. Each such file is only counted as unmodified.
- The validator stops at the first failing stage for each file.

## Model

| member | source | states |
|---|---|---|
| ValidateTips.FilenameMatchesPattern | scripts/validate-tips.js:28 | the checking procedure (strip `.md`/`.mdx`, check the slug character by character) accepts exactly the names of the regular expression read as a grammar |
| ValidateTips.SlugIsGrammar | scripts/validate-tips.js:28 | every slug (letters, digits, single inner hyphens) is derivable as `word(-word)*` |
| ValidateTips.GrammarIsSlug | scripts/validate-tips.js:28 | every `word(-word)*` derivation is a slug |
| ValidateTips.WordThenSlug | scripts/validate-tips.js:28 | a word, a hyphen and a slug make a slug |
| ValidateTips.ValidateFilename | scripts/validate-tips.js:67-76 | valid exactly when the basename matches the pattern; otherwise the exact error text naming the basename and the hint |
| ValidateTips.AcceptedFilenameExample | scripts/validate-tips.js:67-76 | `tips/my-tip-name.mdx` is accepted |
| ValidateTips.AcceptedNameExample | scripts/validate-tips.js:28 | `my-tip-name.mdx` matches |
| ValidateTips.RejectedUpperCaseExample | scripts/validate-tips.js:67-76 | `tips/My_Tip.md` is rejected |
| ValidateTips.RejectedUpperCaseName | scripts/validate-tips.js:28 | `My_Tip.md` does not match |
| ValidateTips.RejectedDoubleHyphenExample | scripts/validate-tips.js:67-76 | `tips/a--b.md` is rejected |
| ValidateTips.RejectedDoubleHyphenName | scripts/validate-tips.js:28 | `a--b.md` does not match |
| ValidateTips.RejectedLeadingHyphenExample | scripts/validate-tips.js:67-76 | `tips/-a.md` is rejected |
| ValidateTips.RequiredString | scripts/validate-tips.js:31-32 | no issue exactly when the value is a non-empty string; at most one issue, about that field |
| ValidateTips.EnumField | scripts/validate-tips.js:33-38 | no issue exactly when the value is one of the configured ids; otherwise the single message listing every id joined by ", " in configuration order, a missing field included |
| ValidateTips.OptionalDate | scripts/validate-tips.js:41-42 | no issue exactly when the field is absent or the date coercion accepts it; a rejected date is reported as zod 3 does, with its own "Invalid date" |
| ValidateTips.OptionalString | scripts/validate-tips.js:43 | no issue exactly when the field is absent or a string |
| ValidateTips.OptionalUrl | scripts/validate-tips.js:44 | no issue exactly when the field is absent or a string the URL check accepts |
| ValidateTips.TagElementIssues | scripts/validate-tips.js:47 | no issue exactly when every element is a string; every issue is about `tags` |
| ValidateTips.TagsField | scripts/validate-tips.js:47 | no issue exactly when `tags` is absent or an array of strings |
| ValidateTips.MediaTypeField | scripts/validate-tips.js:48 | no issue exactly when `mediaType` is absent or exactly "image" or "video" |
| ValidateTips.RequiredFieldIssues | scripts/validate-tips.js:31-38 | no issue exactly when title and subtitle are non-empty strings and category and difficulty are configured ids; a bad category or difficulty yields its full enum message |
| ValidateTips.DatedFieldIssues | scripts/validate-tips.js:41-43 | no issue exactly when the present dates coerce and a present author is a string |
| ValidateTips.LinkedFieldIssues | scripts/validate-tips.js:44-49 | no issue exactly when the present authorUrl, tags, mediaType and mediaUrl have their declared types |
| ValidateTips.SchemaIssues | scripts/validate-tips.js:30-50 | the issue list is empty exactly when the schema accepts the front matter, field by field; every issue names a declared field; a bad category or difficulty is reported with every valid id |
| ValidateTips.OmittingOptionalField | scripts/validate-tips.js:41-49 | removing any field that is not required never turns an accepted front matter into a rejected one |
| ValidateTips.OmittingOptionalFieldIssues | scripts/validate-tips.js:41-49 | the issues of the front matter without a non-required field are exactly its other issues, in order |
| ValidateTips.RequiredFieldsWithout | scripts/validate-tips.js:31-38 | dropping a non-required field removes only its own issues from the required fields' issues |
| ValidateTips.DatedFieldsWithout | scripts/validate-tips.js:41-43 | dropping any field removes exactly its own issues from the date and author issues |
| ValidateTips.LinkedFieldsWithout | scripts/validate-tips.js:44-49 | dropping any field removes exactly its own issues from the URL, tag and media issues |
| ValidateTips.IssueLines | scripts/validate-tips.js:120-122 | one `- path: message` line per issue, for every issue, in order |
| ValidateTips.SchemaErrorLines | scripts/validate-tips.js:119-126 | splitting the schema error at line breaks gives the header, then exactly the issue lines in order |
| ValidateTips.ValidateTipFile | scripts/validate-tips.js:104-130 | a bad filename is returned without reading the file; a missing or undecodable file is reported before any schema check; otherwise valid exactly when the schema accepts, with the issue report as error |
| ValidateTips.TipsDirBeforeIff | scripts/validate-tips.js:59 | the right-to-left scan finds "tips/" followed by no line terminator exactly when the unanchored pattern does |
| ValidateTips.FilesToValidate | scripts/validate-tips.js:56-60 | the selected files are the arguments with "tips/" somewhere and a final `.md` or `.mdx` with no line break after "tips/", in their order, each kept as many times as it is given and every other argument dropped |
| ValidateTips.ArgumentExamples | scripts/validate-tips.js:56-60 | of `tips/a.md README.md docs/tips/b.mdx tips/c.txt`, the first and third are kept, in that order |
| ValidateTips.TipArgumentExamples | scripts/validate-tips.js:59 | the filter keeps `tips/a.md` and `docs/tips/b.mdx` and drops `README.md` and `tips/c.txt` |
| ValidateTips.ValidateAll | scripts/validate-tips.js:147-150 | one result per selected file, in order, each that file's verdict |
| ValidateTips.FailedCount | scripts/validate-tips.js:164 | the count is positive exactly when some result is invalid |
| ValidateTips.ValidateRun | scripts/validate-tips.js:135-172 | the results are those of the selected files; the exit code is 1 exactly when some result is invalid and 0 exactly when all are valid; no selected file means exit 0 |
| ValidateTips.MissingTitleScenario | scripts/validate-tips.js:30-50 | a front matter with only category and difficulty has exactly the two "Required" issues, title before subtitle |
| ValidateTips.BogusCategoryScenario | scripts/validate-tips.js:33-35 | an unknown category is the only issue and carries the enum message, whose list of ids reads "setup, shortcuts" |
| AutoAddMetadata.NoreplyLocal | scripts/auto-add-metadata.js:32 | a match gives a non-empty local part without '@' that, followed by the no-reply domain, is the whole address; no match says why |
| AutoAddMetadata.NoreplyUser | scripts/auto-add-metadata.js:32-34 | the second capture group: the local part, or what follows a leading `digits+` prefix |
| AutoAddMetadata.UsernameFromEmail | scripts/auto-add-metadata.js:32-38 | no username exactly when the address is empty or starts with '@'; a username is non-empty and has no '@'; outside the no-reply form it is the text before the first '@' |
| AutoAddMetadata.NumberedNoreplyAddress | scripts/auto-add-metadata.js:32-34 | `digits+user@users.noreply.github.com` gives `user` |
| AutoAddMetadata.PlainNoreplyAddress | scripts/auto-add-metadata.js:32-34 | `user@users.noreply.github.com` gives `user` |
| AutoAddMetadata.OtherAddress | scripts/auto-add-metadata.js:37-38 | any other address gives the text before its first '@' |
| AutoAddMetadata.NumberedNoreplyExample | scripts/auto-add-metadata.js:31-34 | `123456+alice@users.noreply.github.com` gives `alice` |
| AutoAddMetadata.PlainNoreplyExample | scripts/auto-add-metadata.js:31-34 | `alice@users.noreply.github.com` gives `alice` |
| AutoAddMetadata.GitAuthor | scripts/auto-add-metadata.js:22-43 | a failed lookup gives no author; otherwise the username of the trimmed output |
| AutoAddMetadata.AuthorUrl | scripts/auto-add-metadata.js:48-51 | a URL exactly for a truthy author, and it is "https://github.com/" followed by the author's string form |
| AutoAddMetadata.Enriched | scripts/auto-add-metadata.js:69-102 | a truthy publishedAt, author or authorUrl is kept; a falsy one is filled (author only from a found username, authorUrl only with an author, as the profile URL); updatedAt is today; no other field changes |
| AutoAddMetadata.ChangeLog | scripts/auto-add-metadata.js:67-101 | one message per field set, in the order publishedAt, updatedAt, author, authorUrl, each naming the field and its new value; a field that is kept gets none |
| AutoAddMetadata.ChangesIffDifferent | scripts/auto-add-metadata.js:66-102 | a change is logged exactly when the front matter changed |
| AutoAddMetadata.EnrichedIdempotent | scripts/auto-add-metadata.js:66-103 | enriching the enriched front matter with the same date and lookup changes nothing and logs nothing |
| AutoAddMetadata.AddMetadata | scripts/auto-add-metadata.js:66-102 | the in-place updates give the enriched front matter and its change log; `modified` exactly when a change was pushed, and exactly when the front matter changed |
| AutoAddMetadata.AddMetadataToFile | scripts/auto-add-metadata.js:57-120 | a failed read or decode returns false and writes nothing; otherwise the enriched front matter is written, body kept, exactly when modified |
| AutoAddMetadata.EnrichAll | scripts/auto-add-metadata.js:134-140 | the modified count never exceeds the number of files |
| AutoAddMetadata.Run | scripts/auto-add-metadata.js:122-145 | the changed files are processed in order on one disk, the count is the number of true returns, and the exit code is 0 |
| AutoAddMetadata.EnrichFileSettles | scripts/auto-add-metadata.js:104-115 | processing a file leaves it needing no change and unsettles no other file |
| AutoAddMetadata.EnrichAllSettles | scripts/auto-add-metadata.js:136-140 | after a run, every file it named needs no change |
| AutoAddMetadata.SettledRunIsNoop | scripts/auto-add-metadata.js:136-140 | a run over files that need no change modifies nothing |
| AutoAddMetadata.SecondRunIsNoop | scripts/auto-add-metadata.js:122-145 | a second run with the same date and lookup modifies no file and leaves the disk as the first run left it |
| UploadMedia.EnvValue | scripts/upload-media-to-r2.js:15-19 | the variable's value when it is set, "" when it is not; non-empty exactly when it is set and not empty |
| UploadMedia.MissingVarsMembers | scripts/upload-media-to-r2.js:23-27 | a name is reported exactly when it is required and unset or empty |
| UploadMedia.MissingVarsInOrder | scripts/upload-media-to-r2.js:23-27 | the names are reported in the order they are checked |
| UploadMedia.ValidateEnv | scripts/upload-media-to-r2.js:22-38 | the pushes build exactly the missing names among R2_ACCOUNT_ID, R2_ACCESS_KEY_ID, R2_SECRET_ACCESS_KEY, R2_PUBLIC_URL, in that order |
| UploadMedia.BucketName | scripts/upload-media-to-r2.js:18 | never empty; the variable when it is set, "zed-tips-media" otherwise |
| UploadMedia.ContentTypeOf | scripts/upload-media-to-r2.js:90-102 | the table's entry for a listed extension, "application/octet-stream" otherwise |
| UploadMedia.ContentType | scripts/upload-media-to-r2.js:88-103 | fails exactly when the URL does not parse; otherwise the type of the lower-cased extension of its path |
| UploadMedia.UpperCaseExtensionExample | scripts/upload-media-to-r2.js:89-102 | `.MP4` is looked up as `.mp4` and gives video/mp4 |
| UploadMedia.DotFileExample | scripts/upload-media-to-r2.js:89 | `/media/.png` has no extension |
| UploadMedia.NoExtensionIsBinary | scripts/upload-media-to-r2.js:102 | no extension gives the generic binary type |
| UploadMedia.HashPrefix | scripts/upload-media-to-r2.js:112 | the first eight characters of the digest, which are hex digits without a slash when the digest is hex |
| UploadMedia.KeyExtension | scripts/upload-media-to-r2.js:110 | always a proper extension; the URL path's own when it has one, ".jpg" when it has none |
| UploadMedia.GenerateFilename | scripts/upload-media-to-r2.js:108-115 | the key is exactly the tip's stem, a hyphen, the hash prefix and the key extension: that prefix, that suffix and the sum of their lengths |
| UploadMedia.KeyKeepsExtension | scripts/upload-media-to-r2.js:108-115 | the key's own extension is the key extension: the stored name keeps the media's type |
| UploadMedia.KeyAnnouncesContentType | scripts/upload-media-to-r2.js:88-115 | when the URL path has an extension, the content type is the one the key's extension announces |
| UploadMedia.ExtensionlessKey | scripts/upload-media-to-r2.js:88-115 | without an extension the key ends in `.jpg` while the content type is application/octet-stream |
| UploadMedia.IsR2Url | scripts/upload-media-to-r2.js:130-138 | false for a falsy or unparseable URL, or when the public address does not parse; otherwise true exactly when the URL's hostname equals the public address's hostname |
| UploadMedia.R2Url | scripts/upload-media-to-r2.js:124 | the public address, a slash, then exactly the key |
| UploadMedia.WithMediaUrl | scripts/upload-media-to-r2.js:173-178 | only `mediaUrl` of that one file changes; body, other fields and other files stay |
| UploadMedia.Rehome | scripts/upload-media-to-r2.js:143-189 | a missing or undecodable file fails; an absent, falsy or R2 `mediaUrl` is skipped; otherwise a failed download or a non-string URL fails as a download, then a URL that does not parse fails, then a failed upload fails, and the file is uploaded exactly when all three succeed; on skip or failure nothing is written; an upload sets `mediaUrl` to the key's public address |
| UploadMedia.ProcessFile | scripts/upload-media-to-r2.js:143-189 | the step-by-step file processing has exactly the effect of the rehoming rule |
| UploadMedia.RehomedNeedsNoUpload | scripts/upload-media-to-r2.js:124-161 | a rehomed tip is skipped when processed again |
| UploadMedia.RehomeAll | scripts/upload-media-to-r2.js:213-226 | uploads and errors together never exceed the files; every error names a processed file |
| UploadMedia.ProcessAll | scripts/upload-media-to-r2.js:213-226 | the loop counts uploads, records each thrown error with its file and goes on, as the fold does |
| UploadMedia.Run | scripts/upload-media-to-r2.js:194-241 | missing configuration exits with 1 before any file is read; otherwise the files are processed in order and the exit code is 1 exactly when errors were recorded |
| UploadMedia.RehomeKeepsSettled | scripts/upload-media-to-r2.js:143-189 | a successful step leaves its file needing no upload and keeps every file that needed none |
| UploadMedia.CleanRunSettles | scripts/upload-media-to-r2.js:213-226 | after a run without errors every named file needs no upload |
| UploadMedia.SettledRunIsNoop | scripts/upload-media-to-r2.js:213-226 | a run over files needing no upload uploads nothing, records nothing and changes nothing |
| UploadMedia.SecondRunIsNoop | scripts/upload-media-to-r2.js:194-241 | after a run without errors a second run uploads nothing, records nothing and changes no file |
| UpdateExternalMedia.IsExternalMediaUrl | scripts/update-external-media-tips.js:12-22 | false for a falsy or unparseable URL; otherwise true exactly when its hostname differs from cat.zed.tips |
| UpdateExternalMedia.TouchEntry | scripts/update-external-media-tips.js:24-42 | a tip with an external `mediaUrl` gets `updatedAt` = today and nothing else changes; anything else is left as it is |
| UpdateExternalMedia.TouchKeepsNeed | scripts/update-external-media-tips.js:29-35 | touching leaves `mediaUrl` and so whether the tip needs touching |
| UpdateExternalMedia.TouchIdempotent | scripts/update-external-media-tips.js:33-35 | touching twice on the same day is touching once |
| UpdateExternalMedia.TouchFile | scripts/update-external-media-tips.js:24-42 | fails exactly on a missing or undecodable file; returns true exactly for a tip with an external `mediaUrl` and then rewrites only that file; otherwise writes nothing |
| UpdateExternalMedia.UpdateTipFile | scripts/update-external-media-tips.js:24-42 | the in-place update has exactly the effect of the touch rule |
| UpdateExternalMedia.Candidates | scripts/update-external-media-tips.js:53-68 | the tips needing a touch are a subsequence of the glob list |
| UpdateExternalMedia.Run | scripts/update-external-media-tips.js:44-77 | the loop counts and lists the updated files and goes on after an error, as the fold does |
| UpdateExternalMedia.TouchAllPointwise | scripts/update-external-media-tips.js:53-68 | every listed tip is touched, every other file is unchanged, the updated list is the candidates in glob order, and the count is its length |
| UpdateExternalMedia.SecondRunSameAsFirst | scripts/update-external-media-tips.js:44-77 | a second run on the same day lists and counts the same files and leaves the disk as the first did |
| Strings.Tokens | scripts/auto-add-metadata.js:125 | the tokens are non-empty, free of white space, and together hold every other character in order |
| Strings.TokensOfWord | scripts/auto-add-metadata.js:125 | a word without white space is one token |
| Strings.TokensOfSpaces | scripts/auto-add-metadata.js:125 | white space alone gives no token |
| Strings.TokensAtSpace | scripts/auto-add-metadata.js:125 | a white-space character splits the tokens: those of the text before it, then those of the text after it |
| Strings.ChangedFiles | scripts/auto-add-metadata.js:125-130 | an unset variable gives no files; a set one gives its tokens; every file name is non-empty and free of white space |
| Strings.Trim | scripts/auto-add-metadata.js:28 | the slice of the string after its leading white space, with only white space after it and no white space at either of its own ends; a string without white space is unchanged |
| Strings.SplitJoin | scripts/validate-tips.js:120-122 | splitting lines joined with a separator absent from each gives the lines back |
| Strings.SplitHead | scripts/auto-add-metadata.js:37 | the first piece of `split('@')` is the text before the first '@' |
| Strings.NatToString | scripts/validate-tips.js:121 | the decimal digits that denote the number, without leading zeros |
| Strings.ToLowerAscii | scripts/upload-media-to-r2.js:89 | every upper-case ASCII letter becomes its lower-case letter, and every other character is kept |
| Paths.Basename | scripts/validate-tips.js:68 | the last segment, trailing slashes ignored: the longest suffix without '/' |
| Paths.BasenameOfJoin | scripts/validate-tips.js:68 | the basename of `dir/name` is `name` |
| Paths.Stem | scripts/upload-media-to-r2.js:111 | the stem followed by the extension is the basename; a segment with an extension has a non-empty stem |
| Paths.ExtensionStart | scripts/upload-media-to-r2.js:110 | the extension starts at the last dot of the segment, never at its first character; there is none exactly for ".." or when no dot follows the first character |
| Paths.Extname | scripts/upload-media-to-r2.js:110 | the suffix of the basename that begins at its extension start: empty, or a dot followed by neither dot nor slash |
| Paths.ExtnameOfNamedFile | scripts/upload-media-to-r2.js:110 | a non-empty name followed by an extension has exactly that extension |
| Tips.Field | scripts/validate-tips.js:118 | an absent field reads as undefined, a present one as its value |
| Tips.FieldWithout | scripts/validate-tips.js:41-49 | removing one key changes only what is read for that key |

## Left out

- gray-matter: reading, decoding and stringifying front matter is not modelled. A file on disk is already the decoded front matter and body, or a reason it could not be decoded. Writing back is taken to decode to what was written.
- js-yaml loading of the category and difficulty configuration, and its exit on failure: the ids are the `categories` and `difficulties` fields of `Schema`.
- zod: the rules are modelled directly, with zod 3's behaviour. `z.coerce.date()` and `.url()` are abstract predicates in `Schema`. The messages the library writes itself ("Required", "Expected string, received number", "Invalid date") use zod 3's wording. Under zod 3 the custom date messages of the schema are never shown: the coercion always yields a `Date`, and an invalid one is reported with zod's own text.
- WHATWG `new URL` parsing is a parameter (`UrlParser`), returning the hostname and pathname or failure.
- md5 is a parameter. Properties that need hex digests say so in a requires clause.
- `downloadFile`'s HTTP or HTTPS choice, its unbounded redirect following and its status handling are not modelled. The download is a parameter that succeeds or fails.
- `createR2Operator`, the credentials and `operator.write` are not modelled. The upload is a parameter that succeeds or fails for a key. The content type has no effect on the upload, just as in the script.
- There is no existence check in the scripts, so none is modelled.
- `execSync` of `git log` is a parameter from path to its output, or `None` when the command throws.
- File-system write failures are not modelled. A write always succeeds, and a read fails only for a missing or undecodable file.
- `globSync` over the tips directory is a parameter: the list of tip files.
- `path.join` with the working directory: paths are used as given.
- Dates: `new Date().toISOString().split('T')[0]` is one `today` parameter per run. The script reads the clock again at every call.
- Console output, the per-file report text and the upload size in kilobytes are not modelled. `process.exit` is modelled as a returned exit code.
- `toLowerCase` is modelled on ASCII letters only. No key of the content-type table contains a character whose lower-case form differs outside ASCII.
- Front-matter numbers are integers. YAML floats are not modelled.
- AutoAddMetadata.ChangesIffDifferent and AutoAddMetadata.EnrichedIdempotent: need a non-empty date and a non-empty username. The script's date and lookup always give these.
- UploadMedia.SecondRunIsNoop: needs every key's public address to parse with the bucket's hostname (`KeysStayOnHost`). URL parsing is a parameter here.
- UploadMedia.RehomedNeedsNoUpload: needs `KeysStayOnHost`, for the same reason.
- UploadMedia.RehomeKeepsSettled: needs `KeysStayOnHost`, for the same reason.
- UploadMedia.CleanRunSettles: needs `KeysStayOnHost`, for the same reason.
- Tokens: its own contract does not say where one token ends and the next begins. `Strings.TokensOfWord`, `Strings.TokensOfSpaces` and `Strings.TokensAtSpace` say it: together they fix the tokens of every string as its maximal runs of non-white-space characters.
- ChangedFiles: inherits this from Tokens. The file list is the tokens of `CHANGED_FILES`.
