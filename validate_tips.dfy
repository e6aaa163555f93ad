/** The tip validator (scripts/validate-tips.js): a filename rule, a field
    schema for the front matter, a per-file pipeline that stops at the first
    failing stage, and the pass/fail verdict of a run over the command-line
    arguments. Everything here is a pure function, as in the script. */
module ValidateTips {
  import opened Strings
  import opened Tips
  import Paths

  // ---------------------------------------------------------------------
  // Filename rule: ^[a-z0-9]+(-[a-z0-9]+)*\.(md|mdx)$ on the basename
  // ---------------------------------------------------------------------

  predicate IsWordChar(c: char) { 'a' <= c <= 'z' || '0' <= c <= '9' }

  predicate IsWord(w: string) {
    |w| > 0 && forall i :: 0 <= i < |w| ==> IsWordChar(w[i])
  }

  /** `[a-z0-9]+(-[a-z0-9]+)*` read as a grammar: one word, or a word, a
      hyphen and again a slug. */
  ghost predicate SlugGrammar(s: string)
    decreases |s|
  {
    IsWord(s)
    || exists k :: 0 < k < |s| - 1 && s[k] == '-' && IsWord(s[..k]) && SlugGrammar(s[k + 1..])
  }

  /** The same language, checked character by character: lower-case letters,
      digits and hyphens, no hyphen first, last, or twice in a row. */
  predicate IsSlug(s: string) {
    && |s| > 0
    && (forall i :: 0 <= i < |s| ==> IsWordChar(s[i]) || s[i] == '-')
    && s[0] != '-'
    && s[|s| - 1] != '-'
    && (forall i :: 0 <= i < |s| - 1 ==> s[i] == '-' ==> s[i + 1] != '-')
  }

  lemma {:induction false} SlugIsGrammar(s: string)
    requires IsSlug(s)
    ensures SlugGrammar(s)
    decreases |s|
  {
    var k := IndexOf(s, '-');
    if k < 0 {
      assert IsWord(s);
    } else {
      SlugSplitsAtFirstHyphen(s, k);
      SlugIsGrammar(s[k + 1..]);
    }
  }

  /** The text before a slug's first hyphen is a word, and the text after
      it a slug. */
  lemma SlugSplitsAtFirstHyphen(s: string, k: int)
    requires IsSlug(s) && 0 <= k < |s| && s[k] == '-' && '-' !in s[..k]
    ensures 0 < k < |s| - 1 && IsWord(s[..k]) && IsSlug(s[k + 1..])
  {
    assert forall i :: 0 <= i < k ==> s[..k][i] == s[i];
    var rest := s[k + 1..];
    assert forall i :: 0 <= i < |rest| ==> rest[i] == s[k + 1 + i];
  }

  lemma {:induction false} GrammarIsSlug(s: string)
    requires SlugGrammar(s)
    ensures IsSlug(s)
    decreases |s|
  {
    if !IsWord(s) {
      var k :| 0 < k < |s| - 1 && s[k] == '-' && IsWord(s[..k]) && SlugGrammar(s[k + 1..]);
      GrammarIsSlug(s[k + 1..]);
      JoinedAtHyphen(s, k);
    }
  }

  /** A word, a hyphen and a slug make a slug. */
  lemma JoinedAtHyphen(s: string, k: int)
    requires 0 < k < |s| - 1 && s[k] == '-' && IsWord(s[..k]) && IsSlug(s[k + 1..])
    ensures IsSlug(s)
  {
    var w, rest := s[..k], s[k + 1..];
    assert forall i :: 0 <= i < k ==> s[i] == w[i];
    assert forall i :: k < i < |s| ==> s[i] == rest[i - k - 1];
  }

  /** The same, for a slug built by concatenation. */
  lemma WordThenSlug(w: string, rest: string)
    requires IsWord(w) && IsSlug(rest)
    ensures IsSlug(w + "-" + rest)
  {
    var s := w + "-" + rest;
    assert forall i :: 0 <= i < |w| ==> s[i] == w[i];
    assert s[|w|] == '-';
    assert forall i :: |w| < i < |s| ==> s[i] == rest[i - |w| - 1];
  }

  /** The regular expression itself: a slug followed by ".md" or ".mdx",
      nothing else. */
  ghost predicate FilenamePattern(name: string) {
    exists k :: 0 <= k <= |name| && SlugGrammar(name[..k]) && (name[k..] == ".md" || name[k..] == ".mdx")
  }

  /** How the rule is checked: strip the extension, check the slug. */
  predicate FilenameMatches(name: string) {
    || (HasSuffix(name, ".mdx") && IsSlug(name[..|name| - 4]))
    || (HasSuffix(name, ".md") && IsSlug(name[..|name| - 3]))
  }

  lemma FilenameMatchesPattern(name: string)
    ensures FilenameMatches(name) <==> FilenamePattern(name)
  {
    if FilenameMatches(name) {
      var k := if HasSuffix(name, ".mdx") && IsSlug(name[..|name| - 4]) then |name| - 4 else |name| - 3;
      SlugIsGrammar(name[..k]);
      assert name[k..] == ".md" || name[k..] == ".mdx";
    }
    if FilenamePattern(name) {
      var k :| 0 <= k <= |name| && SlugGrammar(name[..k]) && (name[k..] == ".md" || name[k..] == ".mdx");
      GrammarIsSlug(name[..k]);
      if name[k..] == ".md" {
        assert k == |name| - 3 && HasSuffix(name, ".md");
      } else {
        assert k == |name| - 4 && HasSuffix(name, ".mdx");
      }
    }
  }

  datatype Verdict = Valid | Invalid(error: string)

  const FilenameHint := "Use lowercase with hyphens (e.g., \"my-tip-name.mdx\")"

  /** `validateFilename`: only the basename is checked, against the pattern. */
  function ValidateFilename(filepath: string): (r: Verdict)
    ensures r.Valid? <==> FilenamePattern(Paths.Basename(filepath))
    ensures r.Invalid? ==>
      r.error == "Invalid filename format: \"" + Paths.Basename(filepath) + "\". " + FilenameHint
  {
    var name := Paths.Basename(filepath);
    FilenameMatchesPattern(name);
    if !FilenameMatches(name) then
      Invalid("Invalid filename format: \"" + name + "\". " + FilenameHint)
    else
      Valid
  }

  lemma AcceptedFilenameExample()
    ensures ValidateFilename("tips/my-tip-name.mdx").Valid?
  {
    var name := "my-tip-name.mdx";
    assert "tips/my-tip-name.mdx" == "tips" + "/" + name;
    assert '/' !in name;
    Paths.BasenameOfJoin("tips", name);
    AcceptedNameExample();
  }

  lemma AcceptedNameExample()
    ensures FilenameMatches("my-tip-name.mdx")
  {
    var name := "my-tip-name.mdx";
    assert name[..|name| - 4] == "my" + "-" + ("tip" + "-" + "name");
    assert IsWord("my") && IsWord("tip") && IsWord("name");
    WordThenSlug("tip", "name");
    WordThenSlug("my", "tip-name");
  }

  lemma RejectedUpperCaseExample()
    ensures ValidateFilename("tips/My_Tip.md").Invalid?
  {
    var name := "My_Tip.md";
    assert "tips/My_Tip.md" == "tips" + "/" + name;
    assert '/' !in name;
    Paths.BasenameOfJoin("tips", name);
    RejectedUpperCaseName();
  }

  lemma RejectedUpperCaseName()
    ensures !FilenameMatches("My_Tip.md")
  {
    var name := "My_Tip.md";
    assert name[|name| - 4] == 'p';
    assert name[..|name| - 3][0] == 'M';
  }

  lemma RejectedDoubleHyphenExample()
    ensures ValidateFilename("tips/a--b.md").Invalid?
  {
    var name := "a--b.md";
    assert "tips/a--b.md" == "tips" + "/" + name;
    assert '/' !in name;
    Paths.BasenameOfJoin("tips", name);
    RejectedDoubleHyphenName();
  }

  lemma RejectedDoubleHyphenName()
    ensures !FilenameMatches("a--b.md")
  {
    var name := "a--b.md";
    assert name[|name| - 4] == 'b';
    assert name[..|name| - 3][1] == '-' && name[..|name| - 3][2] == '-';
  }

  lemma RejectedLeadingHyphenExample()
    ensures ValidateFilename("tips/-a.md").Invalid?
  {
    assert "tips/-a.md" == "tips" + "/" + "-a.md";
    Paths.BasenameOfJoin("tips", "-a.md");
    assert "-a.md"[0] == '-';
  }

  // ---------------------------------------------------------------------
  // Field schema (tipsSchema)
  // ---------------------------------------------------------------------

  /** One schema violation: the field path and its message. */
  datatype Issue = Issue(path: seq<string>, message: string)

  /** What the schema is built from: the configured category and difficulty
      ids (in configuration order), and the library's date coercion and URL
      check, left abstract. */
  datatype Schema = Schema(
    categories: seq<string>,
    difficulties: seq<string>,
    isDate: Value -> bool,
    isUrl: string -> bool)

  /** The schema's fields, in declaration order. */
  const SchemaKeys: seq<string> :=
    ["title", "subtitle", "category", "difficulty", "publishedAt", "updatedAt",
     "author", "authorUrl", "tags", "mediaType", "mediaUrl"]

  /** The fields the schema requires; every other declared field is
      optional. */
  const RequiredKeys: set<string> := {"title", "subtitle", "category", "difficulty"}

  /** Every issue of `issues` is about field `key`. */
  predicate AllAbout(issues: seq<Issue>, key: string) {
    forall x :: x in issues ==> |x.path| >= 1 && x.path[0] == key
  }

  /** Every issue of `issues` is about a declared field. */
  predicate AllDeclared(issues: seq<Issue>) {
    forall x :: x in issues ==> |x.path| >= 1 && x.path[0] in SchemaKeys
  }

  function ExpectedMessage(expected: string, v: Value): string {
    "Expected " + expected + ", received " + TypeName(v)
  }

  const MediaTypeMessage := "mediaType must be either \"image\" or \"video\""

  /** `z.string().min(1, tooShort)`: a required string of at least one
      character. */
  function RequiredString(key: string, v: Option<Value>, tooShort: string): (r: seq<Issue>)
    ensures r == [] <==> v.Some? && v.value.Str? && v.value.s != ""
    ensures AllAbout(r, key) && |r| <= 1
  {
    match v
    case None => [Issue([key], "Required")]
    case Some(Str(s)) => if s == "" then [Issue([key], tooShort)] else []
    case Some(other) => [Issue([key], ExpectedMessage("string", other))]
  }

  /** The enum message: the field name and every valid id, joined by ", "
      in configuration order. */
  function EnumMessage(key: string, ids: seq<string>): string {
    key + " must be one of: " + Join(ids, ", ")
  }

  /** `z.enum(ids, { errorMap })`: every failure, a missing field included,
      carries the one message listing all valid ids. */
  function EnumField(key: string, v: Option<Value>, ids: seq<string>): (r: seq<Issue>)
    ensures r == [] <==> v.Some? && v.value.Str? && v.value.s in ids
    ensures r != [] ==> r == [Issue([key], EnumMessage(key, ids))]
    ensures AllAbout(r, key)
  {
    if v.Some? && v.value.Str? && v.value.s in ids then []
    else [Issue([key], EnumMessage(key, ids))]
  }

  /** zod's own text for a value that `new Date` cannot read. */
  const InvalidDateMessage := "Invalid date"

  /** `z.coerce.date({ message }).optional()`. The coercion always yields a
      `Date`, so a bad value is an invalid date rather than a wrong type, and
      zod 3 reports it with its own text, not the schema's message. */
  function OptionalDate(key: string, v: Option<Value>, isDate: Value -> bool): (r: seq<Issue>)
    ensures r == [] <==> (v.Some? ==> isDate(v.value))
    ensures r != [] ==> r == [Issue([key], InvalidDateMessage)]
    ensures AllAbout(r, key)
  {
    if v.Some? && !isDate(v.value) then [Issue([key], InvalidDateMessage)]
    else []
  }

  /** `z.string().optional()`. */
  function OptionalString(key: string, v: Option<Value>): (r: seq<Issue>)
    ensures r == [] <==> (v.Some? ==> v.value.Str?)
    ensures AllAbout(r, key)
  {
    if v.Some? && !v.value.Str? then [Issue([key], ExpectedMessage("string", v.value))] else []
  }

  /** `z.string().url(message).optional()`. */
  function OptionalUrl(key: string, v: Option<Value>, isUrl: string -> bool): (r: seq<Issue>)
    ensures r == [] <==> (v.Some? ==> v.value.Str? && isUrl(v.value.s))
    ensures AllAbout(r, key)
  {
    match v
    case None => []
    case Some(Str(s)) => if isUrl(s) then [] else [Issue([key], key + " must be a valid URL")]
    case Some(other) => [Issue([key], ExpectedMessage("string", other))]
  }

  /** One issue per non-string element of the tag array, at path
      "tags.<index>", in index order. */
  function TagElementIssues(items: seq<Value>, start: nat): (r: seq<Issue>)
    ensures r == [] <==> forall i :: 0 <= i < |items| ==> items[i].Str?
    ensures AllAbout(r, "tags")
    decreases |items|
  {
    if |items| == 0 then []
    else
      var here := if items[0].Str? then []
        else [Issue(["tags", NatToString(start)], ExpectedMessage("string", items[0]))];
      var rest := TagElementIssues(items[1..], start + 1);
      assert forall i :: 1 <= i < |items| ==> items[i] == items[1..][i - 1];
      here + rest
  }

  /** `z.array(z.string()).optional()`. */
  function TagsField(v: Option<Value>): (r: seq<Issue>)
    ensures r == [] <==> (v.Some? ==>
      v.value.List? && forall i :: 0 <= i < |v.value.items| ==> v.value.items[i].Str?)
    ensures AllAbout(r, "tags")
  {
    match v
    case None => []
    case Some(List(items)) => TagElementIssues(items, 0)
    case Some(other) => [Issue(["tags"], ExpectedMessage("array", other))]
  }

  /** `z.enum(['image', 'video'], { message }).optional()`: the one message
      for a value of the wrong type and for a wrong string alike. */
  function MediaTypeField(v: Option<Value>): (r: seq<Issue>)
    ensures r == [] <==> (v.Some? ==> v.value == Str("image") || v.value == Str("video"))
    ensures AllAbout(r, "mediaType")
  {
    if v.Some? && v.value != Str("image") && v.value != Str("video") then
      [Issue(["mediaType"], MediaTypeMessage)]
    else []
  }

  /** What the schema accepts, field by field. */
  ghost predicate SchemaAccepts(fm: FrontMatter, sc: Schema) {
    && RequiredAccepts(fm, sc)
    && ("publishedAt" in fm ==> sc.isDate(fm["publishedAt"]))
    && ("updatedAt" in fm ==> sc.isDate(fm["updatedAt"]))
    && ("author" in fm ==> fm["author"].Str?)
    && ("authorUrl" in fm ==> fm["authorUrl"].Str? && sc.isUrl(fm["authorUrl"].s))
    && ("tags" in fm ==>
          fm["tags"].List? && forall i :: 0 <= i < |fm["tags"].items| ==> fm["tags"].items[i].Str?)
    && ("mediaType" in fm ==> fm["mediaType"] == Str("image") || fm["mediaType"] == Str("video"))
    && ("mediaUrl" in fm ==> fm["mediaUrl"].Str? && sc.isUrl(fm["mediaUrl"].s))
  }

  /** The four required fields: present, non-empty strings, and for the
      category and difficulty one of the configured ids. */
  ghost predicate RequiredAccepts(fm: FrontMatter, sc: Schema) {
    && "title" in fm && fm["title"].Str? && fm["title"].s != ""
    && "subtitle" in fm && fm["subtitle"].Str? && fm["subtitle"].s != ""
    && CategoryAccepted(fm, sc)
    && DifficultyAccepted(fm, sc)
  }

  predicate CategoryAccepted(fm: FrontMatter, sc: Schema) {
    "category" in fm && fm["category"].Str? && fm["category"].s in sc.categories
  }

  predicate DifficultyAccepted(fm: FrontMatter, sc: Schema) {
    "difficulty" in fm && fm["difficulty"].Str? && fm["difficulty"].s in sc.difficulties
  }

  /** The issues of the four required fields, in declaration order. */
  function RequiredFieldIssues(fm: FrontMatter, sc: Schema): (r: seq<Issue>)
    ensures r == [] <==> RequiredAccepts(fm, sc)
    ensures AllDeclared(r)
    ensures !CategoryAccepted(fm, sc) ==> Issue(["category"], EnumMessage("category", sc.categories)) in r
    ensures !DifficultyAccepted(fm, sc) ==> Issue(["difficulty"], EnumMessage("difficulty", sc.difficulties)) in r
  {
    RequiredString("title", Field(fm, "title"), "title is required")
    + RequiredString("subtitle", Field(fm, "subtitle"), "subtitle is required")
    + EnumField("category", Field(fm, "category"), sc.categories)
    + EnumField("difficulty", Field(fm, "difficulty"), sc.difficulties)
  }

  /** The issues of the date fields and the author, in declaration order. */
  function DatedFieldIssues(fm: FrontMatter, sc: Schema): (r: seq<Issue>)
    ensures r == [] <==>
      && ("publishedAt" in fm ==> sc.isDate(fm["publishedAt"]))
      && ("updatedAt" in fm ==> sc.isDate(fm["updatedAt"]))
      && ("author" in fm ==> fm["author"].Str?)
    ensures AllDeclared(r)
  {
    OptionalDate("publishedAt", Field(fm, "publishedAt"), sc.isDate)
    + OptionalDate("updatedAt", Field(fm, "updatedAt"), sc.isDate)
    + OptionalString("author", Field(fm, "author"))
  }

  /** The issues of the author URL, tags and media fields, in declaration
      order. */
  function LinkedFieldIssues(fm: FrontMatter, sc: Schema): (r: seq<Issue>)
    ensures r == [] <==>
      && ("authorUrl" in fm ==> fm["authorUrl"].Str? && sc.isUrl(fm["authorUrl"].s))
      && ("tags" in fm ==>
            fm["tags"].List? && forall i :: 0 <= i < |fm["tags"].items| ==> fm["tags"].items[i].Str?)
      && ("mediaType" in fm ==> fm["mediaType"] == Str("image") || fm["mediaType"] == Str("video"))
      && ("mediaUrl" in fm ==> fm["mediaUrl"].Str? && sc.isUrl(fm["mediaUrl"].s))
    ensures AllDeclared(r)
  {
    OptionalUrl("authorUrl", Field(fm, "authorUrl"), sc.isUrl)
    + TagsField(Field(fm, "tags"))
    + MediaTypeField(Field(fm, "mediaType"))
    + OptionalUrl("mediaUrl", Field(fm, "mediaUrl"), sc.isUrl)
  }

  /** `tipsSchema.safeParse(frontMatter).error.issues`: every violation, of
      every field, in the order the schema declares its fields (no stop at
      the first). The list is empty exactly when the schema accepts the
      front matter; a bad category or difficulty is reported with every
      valid id, joined by ", " in configuration order; fields the schema
      does not declare are ignored. */
  function SchemaIssues(fm: FrontMatter, sc: Schema): (r: seq<Issue>)
    ensures r == [] <==> SchemaAccepts(fm, sc)
    ensures AllDeclared(r)
    ensures !CategoryAccepted(fm, sc) ==> Issue(["category"], EnumMessage("category", sc.categories)) in r
    ensures !DifficultyAccepted(fm, sc) ==> Issue(["difficulty"], EnumMessage("difficulty", sc.difficulties)) in r
  {
    RequiredFieldIssues(fm, sc) + DatedFieldIssues(fm, sc) + LinkedFieldIssues(fm, sc)
  }

  /** The issues that remain once the issues about field `key` are dropped. */
  function IssuesNotAbout(issues: seq<Issue>, key: string): seq<Issue>
  {
    if |issues| == 0 then []
    else
      var here := if |issues[0].path| >= 1 && issues[0].path[0] == key then [] else [issues[0]];
      here + IssuesNotAbout(issues[1..], key)
  }

  lemma {:induction false} IssuesNotAboutAppend(a: seq<Issue>, b: seq<Issue>, key: string)
    ensures IssuesNotAbout(a + b, key) == IssuesNotAbout(a, key) + IssuesNotAbout(b, key)
  {
    if |a| > 0 {
      assert (a + b)[1..] == a[1..] + b;
      IssuesNotAboutAppend(a[1..], b, key);
    } else {
      assert a + b == b;
    }
  }

  /** Dropping the issues about another field keeps every issue about
      `about`; dropping those about `about` itself keeps none. */
  lemma {:induction false} IssuesNotAboutPart(part: seq<Issue>, about: string, key: string)
    requires AllAbout(part, about)
    ensures IssuesNotAbout(part, key) == if about == key then [] else part
  {
    if |part| > 0 {
      assert AllAbout(part[1..], about) by {
        forall x | x in part[1..] ensures x in part {}
      }
      IssuesNotAboutPart(part[1..], about, key);
      assert part[0] in part;
      if about != key {
        assert [part[0]] + part[1..] == part;
      }
    }
  }

  /** Omitting a field that is not required (an optional one, or one the
      schema does not declare) never by itself produces a violation. */
  lemma OmittingOptionalField(fm: FrontMatter, sc: Schema, key: string)
    requires key !in RequiredKeys
    ensures SchemaAccepts(fm, sc) ==> SchemaAccepts(fm - {key}, sc)
  {
    OmittingOptionalFieldIssues(fm, sc, key);
  }

  /** The issues of the front matter without a field that is not required
      are exactly its other issues, in the same order. */
  lemma OmittingOptionalFieldIssues(fm: FrontMatter, sc: Schema, key: string)
    requires key !in RequiredKeys
    ensures SchemaIssues(fm - {key}, sc) == IssuesNotAbout(SchemaIssues(fm, sc), key)
  {
    var req, dated, linked := RequiredFieldIssues(fm, sc), DatedFieldIssues(fm, sc), LinkedFieldIssues(fm, sc);
    RequiredFieldsWithout(fm, sc, key);
    DatedFieldsWithout(fm, sc, key);
    LinkedFieldsWithout(fm, sc, key);
    IssuesNotAboutAppend(req, dated, key);
    IssuesNotAboutAppend(req + dated, linked, key);
  }

  lemma RequiredFieldsWithout(fm: FrontMatter, sc: Schema, key: string)
    requires key !in RequiredKeys
    ensures RequiredFieldIssues(fm - {key}, sc) == IssuesNotAbout(RequiredFieldIssues(fm, sc), key)
  {
    var fm' := fm - {key};
    var t := RequiredString("title", Field(fm, "title"), "title is required");
    var s := RequiredString("subtitle", Field(fm, "subtitle"), "subtitle is required");
    var c := EnumField("category", Field(fm, "category"), sc.categories);
    var d := EnumField("difficulty", Field(fm, "difficulty"), sc.difficulties);
    FieldWithout(fm, key, "title");
    FieldWithout(fm, key, "subtitle");
    FieldWithout(fm, key, "category");
    FieldWithout(fm, key, "difficulty");
    IssuesNotAboutPart(t, "title", key);
    IssuesNotAboutPart(s, "subtitle", key);
    IssuesNotAboutPart(c, "category", key);
    IssuesNotAboutPart(d, "difficulty", key);
    IssuesNotAboutAppend(t, s, key);
    IssuesNotAboutAppend(t + s, c, key);
    IssuesNotAboutAppend(t + s + c, d, key);
  }

  lemma DatedFieldsWithout(fm: FrontMatter, sc: Schema, key: string)
    ensures DatedFieldIssues(fm - {key}, sc) == IssuesNotAbout(DatedFieldIssues(fm, sc), key)
  {
    var p := OptionalDate("publishedAt", Field(fm, "publishedAt"), sc.isDate);
    var u := OptionalDate("updatedAt", Field(fm, "updatedAt"), sc.isDate);
    var a := OptionalString("author", Field(fm, "author"));
    FieldWithout(fm, key, "publishedAt");
    FieldWithout(fm, key, "updatedAt");
    FieldWithout(fm, key, "author");
    IssuesNotAboutPart(p, "publishedAt", key);
    IssuesNotAboutPart(u, "updatedAt", key);
    IssuesNotAboutPart(a, "author", key);
    IssuesNotAboutAppend(p, u, key);
    IssuesNotAboutAppend(p + u, a, key);
  }

  lemma LinkedFieldsWithout(fm: FrontMatter, sc: Schema, key: string)
    ensures LinkedFieldIssues(fm - {key}, sc) == IssuesNotAbout(LinkedFieldIssues(fm, sc), key)
  {
    var au := OptionalUrl("authorUrl", Field(fm, "authorUrl"), sc.isUrl);
    var g := TagsField(Field(fm, "tags"));
    var mt := MediaTypeField(Field(fm, "mediaType"));
    var mu := OptionalUrl("mediaUrl", Field(fm, "mediaUrl"), sc.isUrl);
    FieldWithout(fm, key, "authorUrl");
    FieldWithout(fm, key, "tags");
    FieldWithout(fm, key, "mediaType");
    FieldWithout(fm, key, "mediaUrl");
    IssuesNotAboutPart(au, "authorUrl", key);
    IssuesNotAboutPart(g, "tags", key);
    IssuesNotAboutPart(mt, "mediaType", key);
    IssuesNotAboutPart(mu, "mediaUrl", key);
    IssuesNotAboutAppend(au, g, key);
    IssuesNotAboutAppend(au + g, mt, key);
    IssuesNotAboutAppend(au + g + mt, mu, key);
  }

  /** One report line per issue: "- <path joined by .>: <message>". */
  function IssueLine(issue: Issue): string {
    "- " + Join(issue.path, ".") + ": " + issue.message
  }

  function IssueLines(issues: seq<Issue>): (r: seq<string>)
    ensures |r| == |issues|
    ensures forall k :: 0 <= k < |issues| ==> r[k] == IssueLine(issues[k])
  {
    if |issues| == 0 then [] else [IssueLine(issues[0])] + IssueLines(issues[1..])
  }

  const SchemaHeader := "Schema validation failed:"

  function SchemaError(issues: seq<Issue>): string {
    SchemaHeader + "\n" + Join(IssueLines(issues), "\n")
  }

  /** The schema error holds one line per issue, for every issue, in order:
      splitting it at line breaks gives the header and then the issue lines,
      provided no path or message itself contains a line break. */
  lemma SchemaErrorLines(issues: seq<Issue>)
    requires |issues| > 0
    requires forall k :: 0 <= k < |issues| ==> '\n' !in IssueLine(issues[k])
    ensures Split(SchemaError(issues), '\n') == [SchemaHeader] + IssueLines(issues)
  {
    HeaderIsOneLine();
    ReportLines(SchemaHeader, issues);
  }

  lemma ReportLines(header: string, issues: seq<Issue>)
    requires |issues| > 0
    requires '\n' !in header
    requires forall k :: 0 <= k < |issues| ==> '\n' !in IssueLine(issues[k])
    ensures Split(header + "\n" + Join(IssueLines(issues), "\n"), '\n') == [header] + IssueLines(issues)
  {
    var body := IssueLines(issues);
    forall k | 0 <= k < |body| ensures '\n' !in body[k] {
      assert body[k] == IssueLine(issues[k]);
    }
    SplitHeaderAndLines(header, body, '\n');
  }

  lemma HeaderIsOneLine()
    ensures '\n' !in SchemaHeader
  {
  }

  // ---------------------------------------------------------------------
  // Per-file pipeline (validateTipFile) and the run (main)
  // ---------------------------------------------------------------------

  /** `parseTipFile` then the schema, after the filename rule: the first
      failing stage decides the verdict. An invalid filename is reported
      without reading the file; a missing or undecodable file is reported
      before any schema check. */
  function ValidateTipFile(filepath: string, disk: Disk, sc: Schema): (r: Verdict)
    ensures !FilenamePattern(Paths.Basename(filepath)) ==> r == ValidateFilename(filepath)
    ensures FilenamePattern(Paths.Basename(filepath)) && filepath !in disk ==>
      r == Invalid("File not found: " + filepath)
    ensures FilenamePattern(Paths.Basename(filepath)) && filepath in disk && disk[filepath].Undecodable? ==>
      r == Invalid("Failed to parse file: " + disk[filepath].reason)
    ensures FilenamePattern(Paths.Basename(filepath)) && filepath in disk && disk[filepath].Tip? ==>
      (r.Valid? <==> SchemaAccepts(disk[filepath].frontMatter, sc)) &&
      (r.Invalid? ==> r.error == SchemaError(SchemaIssues(disk[filepath].frontMatter, sc)))
  {
    var name := ValidateFilename(filepath);
    if name.Invalid? then name
    else if filepath !in disk then Invalid("File not found: " + filepath)
    else match disk[filepath]
      case Undecodable(reason) => Invalid("Failed to parse file: " + reason)
      case Tip(fm, _) =>
        var issues := SchemaIssues(fm, sc);
        if issues != [] then Invalid(SchemaError(issues)) else Valid
  }

  /** The characters a regular-expression `.` does not match. */
  predicate IsLineTerminator(c: char) {
    c == '\n' || c == '\r' || c == '\U{2028}' || c == '\U{2029}'
  }

  /** Where the dot of a final ".md" or ".mdx" sits, or -1. */
  function ExtensionDot(s: string): (j: int)
    ensures -1 <= j < |s|
    ensures 0 <= j ==> s[j..] == ".md" || s[j..] == ".mdx"
    ensures j < 0 ==> !HasSuffix(s, ".md") && !HasSuffix(s, ".mdx")
  {
    if HasSuffix(s, ".mdx") then |s| - 4
    else if HasSuffix(s, ".md") then |s| - 3
    else -1
  }

  /** The argument filter `tips\/.*\.(md|mdx)$`, unanchored at the start:
      "tips/" somewhere, then characters other than line terminators, then
      the extension at the very end. */
  ghost predicate ArgumentPattern(s: string) {
    var j := ExtensionDot(s);
    0 <= j && TipsDirAt(s, j)
  }

  /** A "tips/" starts at `i`, and no line terminator follows it before
      `j`. */
  ghost predicate TipsDirFrom(s: string, i: int, j: int)
    requires j <= |s|
  {
    0 <= i && i + 5 <= j && s[i..i + 5] == "tips/" && forall m :: i + 5 <= m < j ==> !IsLineTerminator(s[m])
  }

  ghost predicate TipsDirAt(s: string, j: int)
    requires j <= |s|
  {
    exists i :: TipsDirFrom(s, i, j)
  }

  /** Scanning left from `j`: a "tips/" ends at `j` or further left, with no
      line terminator in between. */
  predicate TipsDirBefore(s: string, j: nat)
    requires j <= |s|
    decreases j
  {
    j >= 5 && (s[j - 5..j] == "tips/" || (!IsLineTerminator(s[j - 1]) && TipsDirBefore(s, j - 1)))
  }

  lemma {:induction false} TipsDirBeforeIff(s: string, j: nat)
    requires j <= |s|
    ensures TipsDirBefore(s, j) <==> TipsDirAt(s, j)
    decreases j
  {
    if j >= 5 {
      TipsDirBeforeIff(s, j - 1);
      if TipsDirBefore(s, j) {
        if s[j - 5..j] == "tips/" {
          assert TipsDirFrom(s, j - 5, j);
        } else {
          var i :| TipsDirFrom(s, i, j - 1);
          assert TipsDirFrom(s, i, j);
        }
      }
      if TipsDirAt(s, j) {
        var i :| TipsDirFrom(s, i, j);
        if i + 5 < j {
          assert TipsDirFrom(s, i, j - 1);
        } else {
          assert s[j - 5..j] == "tips/";
        }
      }
    } else {
      assert !TipsDirAt(s, j);
    }
  }

  predicate IsTipArgument(s: string) {
    var j := ExtensionDot(s);
    0 <= j && TipsDirBefore(s, j)
  }

  /** `getFilesToValidate`: the arguments that match the tip pattern, in
      their original order; every matching argument is kept. */
  function FilesToValidate(args: seq<string>): (files: seq<string>)
    ensures IsSubsequence(files, args)
    ensures forall x :: x in files <==> x in args && ArgumentPattern(x)
    ensures forall x :: multiset(files)[x] == if ArgumentPattern(x) then multiset(args)[x] else 0
    ensures |files| <= |args|
  {
    if |args| == 0 then []
    else
      var rest := FilesToValidate(args[1..]);
      TipsDirBeforeIff(args[0], if ExtensionDot(args[0]) < 0 then 0 else ExtensionDot(args[0]));
      assert args == [args[0]] + args[1..];
      if IsTipArgument(args[0]) then
        assert args[0] == args[0] && IsSubsequence(rest, args[1..]);
        [args[0]] + rest
      else
        SubsequenceOfTail(rest, args);
        rest
  }

  lemma ArgumentExamples()
    ensures FilesToValidate(["tips/a.md", "README.md", "docs/tips/b.mdx", "tips/c.txt"]) ==
      ["tips/a.md", "docs/tips/b.mdx"]
  {
    var args := ["tips/a.md", "README.md", "docs/tips/b.mdx", "tips/c.txt"];
    TipArgumentExamples();
    assert args[3..] == ["tips/c.txt"] && args[3..][1..] == [];
    assert FilesToValidate(args[3..]) == [];
    assert args[2..][1..] == args[3..];
    assert FilesToValidate(args[2..]) == ["docs/tips/b.mdx"];
    assert args[1..][1..] == args[2..];
    assert FilesToValidate(args[1..]) == ["docs/tips/b.mdx"];
  }

  /** Which of the example arguments the filter keeps: a path under the
      tips directory and a nested one, but neither a file outside it nor one
      with another extension. */
  lemma TipArgumentExamples()
    ensures IsTipArgument("tips/a.md")
    ensures !IsTipArgument("README.md")
    ensures IsTipArgument("docs/tips/b.mdx")
    ensures !IsTipArgument("tips/c.txt")
  {
    TopLevelTipArgument();
    ReadmeArgument();
    NestedTipArgument();
    TextArgument();
  }

  lemma TopLevelTipArgument()
    ensures IsTipArgument("tips/a.md")
  {
    var s := "tips/a.md";
    assert ExtensionDot(s) == 6;
    assert s[1..6][0] == 'i';
    assert s[0..5] == "tips/";
  }

  lemma ReadmeArgument()
    ensures !IsTipArgument("README.md")
  {
    var s := "README.md";
    assert ExtensionDot(s) == 6;
    assert s[0..5][0] == 'R';
    assert s[1..6][0] == 'E';
    assert !TipsDirBefore(s, 4);
    assert !TipsDirBefore(s, 5);
  }

  lemma NestedTipArgument()
    ensures IsTipArgument("docs/tips/b.mdx")
  {
    var s := "docs/tips/b.mdx";
    assert ExtensionDot(s) == 11;
    assert s[5..10] == "tips/";
    assert s[6..11][0] == 'i';
    assert !IsLineTerminator(s[10]);
    assert TipsDirBefore(s, 10);
  }

  lemma TextArgument()
    ensures !IsTipArgument("tips/c.txt")
  {
    var s := "tips/c.txt";
    assert s[|s| - 3] == 't';
  }

  datatype FileResult = FileResult(file: string, verdict: Verdict)

  datatype RunReport = RunReport(results: seq<FileResult>, failedCount: nat, exitCode: int)

  function ValidateAll(files: seq<string>, disk: Disk, sc: Schema): (r: seq<FileResult>)
    ensures |r| == |files|
    ensures forall k :: 0 <= k < |files| ==> r[k] == FileResult(files[k], ValidateTipFile(files[k], disk, sc))
  {
    seq(|files|, k requires 0 <= k < |files| => FileResult(files[k], ValidateTipFile(files[k], disk, sc)))
  }

  /** `results.filter(r => !r.valid).length`. */
  function FailedCount(results: seq<FileResult>): (n: nat)
    ensures n <= |results|
    ensures n > 0 <==> exists k :: 0 <= k < |results| && results[k].verdict.Invalid?
  {
    if |results| == 0 then 0
    else
      var rest := FailedCount(results[1..]);
      assert forall k :: 1 <= k < |results| ==> results[k] == results[1..][k - 1];
      (if results[0].verdict.Invalid? then 1 else 0) + rest
  }

  /** `main`: validate every selected file against one disk and one schema;
      the run fails (exit code 1) exactly when some file is invalid, and an
      empty selection succeeds. */
  function ValidateRun(args: seq<string>, disk: Disk, sc: Schema): (r: RunReport)
    ensures r.results == ValidateAll(FilesToValidate(args), disk, sc)
    ensures r.exitCode == 1 <==> exists k :: 0 <= k < |r.results| && r.results[k].verdict.Invalid?
    ensures r.exitCode == 0 <==> forall k :: 0 <= k < |r.results| ==> r.results[k].verdict.Valid?
    ensures FilesToValidate(args) == [] ==> r.exitCode == 0
  {
    var files := FilesToValidate(args);
    if |files| == 0 then RunReport([], 0, 0)
    else
      var results := ValidateAll(files, disk, sc);
      var failed := FailedCount(results);
      RunReport(results, failed, if failed > 0 then 1 else 0)
  }

  /** A schema with two categories and two difficulties, accepting every
      date and URL. */
  const ExampleSchema := Schema(["setup", "shortcuts"], ["beginner", "advanced"], (v: Value) => true, (u: string) => true)

  /** Scenario: a missing title and subtitle give exactly two issues, one
      for each, in declaration order. */
  lemma MissingTitleScenario()
    ensures SchemaIssues(map["category" := Str("setup"), "difficulty" := Str("beginner")], ExampleSchema) ==
      [Issue(["title"], "Required"), Issue(["subtitle"], "Required")]
  {
    var fm := map["category" := Str("setup"), "difficulty" := Str("beginner")];
    var sc := ExampleSchema;
    assert fm.Keys == {"category", "difficulty"};
    assert Field(fm, "title") == None && Field(fm, "subtitle") == None;
    assert Field(fm, "category") == Some(Str("setup")) && Field(fm, "difficulty") == Some(Str("beginner"));
    assert "setup" in sc.categories && "beginner" in sc.difficulties;
    assert RequiredFieldIssues(fm, sc) == [Issue(["title"], "Required"), Issue(["subtitle"], "Required")];
    assert DatedFieldIssues(fm, sc) == [];
    assert LinkedFieldIssues(fm, sc) == [];
  }

  /** A front matter whose only fault is its category. */
  const BogusCategoryTip: FrontMatter :=
    map["title" := Str("T"), "subtitle" := Str("S"), "category" := Str("bogus"), "difficulty" := Str("beginner")]

  /** Scenario: a category outside the configuration is the one issue, and
      its message lists the valid ids ("setup, shortcuts"). */
  lemma BogusCategoryScenario()
    ensures SchemaIssues(BogusCategoryTip, ExampleSchema) ==
      [Issue(["category"], EnumMessage("category", ExampleSchema.categories))]
    ensures Join(ExampleSchema.categories, ", ") == "setup, shortcuts"
  {
    ExampleCategoryIds();
    BogusCategoryRequired();
    BogusCategoryOptional();
  }

  /** The ids the example's category message lists. */
  lemma ExampleCategoryIds()
    ensures Join(ExampleSchema.categories, ", ") == "setup, shortcuts"
  {
  }

  lemma BogusCategoryRequired()
    ensures RequiredFieldIssues(BogusCategoryTip, ExampleSchema) ==
      [Issue(["category"], EnumMessage("category", ExampleSchema.categories))]
  {
    var fm, sc := BogusCategoryTip, ExampleSchema;
    assert Field(fm, "title") == Some(Str("T")) && Field(fm, "subtitle") == Some(Str("S"));
    assert Field(fm, "category") == Some(Str("bogus")) && Field(fm, "difficulty") == Some(Str("beginner"));
    assert "bogus" !in sc.categories && "beginner" in sc.difficulties;
  }

  lemma BogusCategoryOptional()
    ensures DatedFieldIssues(BogusCategoryTip, ExampleSchema) == []
    ensures LinkedFieldIssues(BogusCategoryTip, ExampleSchema) == []
  {
    var fm := BogusCategoryTip;
    assert fm.Keys == {"title", "subtitle", "category", "difficulty"};
    assert "publishedAt" !in fm && "updatedAt" !in fm && "author" !in fm;
    assert "authorUrl" !in fm && "tags" !in fm;
    assert "mediaType" !in fm && "mediaUrl" !in fm;
  }
}
