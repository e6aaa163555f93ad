/** Node's POSIX `path.basename` and `path.extname`, which the validator uses
    on tip paths and the media rehomer on tip paths and URL pathnames. */
module Paths {
  import opened Strings

  /** The path without its trailing slashes. */
  function TrimTrailingSlashes(p: string): (r: string)
    ensures HasPrefix(p, r)
    ensures |r| == 0 || r[|r| - 1] != '/'
  {
    if |p| > 0 && p[|p| - 1] == '/' then TrimTrailingSlashes(p[..|p| - 1]) else p
  }

  /** Only slashes are trimmed. */
  lemma {:induction false} TrimRemovesOnlySlashes(p: string)
    ensures forall i :: |TrimTrailingSlashes(p)| <= i < |p| ==> p[i] == '/'
  {
    if |p| > 0 && p[|p| - 1] == '/' {
      TrimRemovesOnlySlashes(p[..|p| - 1]);
    }
  }

  /** `path.basename(p)`: the last segment, trailing slashes ignored: the
      longest suffix without '/' of the trimmed path. */
  function Basename(p: string): (r: string)
    ensures '/' !in r
    ensures HasSuffix(TrimTrailingSlashes(p), r)
    ensures var t := TrimTrailingSlashes(p); |r| == |t| || t[|t| - |r| - 1] == '/'
  {
    var t := TrimTrailingSlashes(p);
    t[LastIndexOf(t, '/') + 1..]
  }

  /** Where `path.extname` of one segment starts: at the last dot, unless
      there is no dot, the last dot is the segment's first character, or the
      segment is ".."; in those cases the extension is empty. */
  function ExtensionStart(seg: string): (i: nat)
    ensures i <= |seg|
    ensures i < |seg| ==> 0 < i && seg[i] == '.' && forall j :: i < j < |seg| ==> seg[j] != '.'
    ensures i == |seg| <==> seg == ".." || forall j :: 0 < j < |seg| ==> seg[j] != '.'
  {
    if seg == ".." then |seg|
    else
      var k := LastIndexOf(seg, '.');
      if k <= 0 then
        assert forall j :: k < j < |seg| ==> seg[j] == seg[k + 1..][j - k - 1];
        |seg|
      else
        assert forall j :: k < j < |seg| ==> seg[j] == seg[k + 1..][j - k - 1];
        k
  }

  /** `path.extname(p)`: empty, or a dot followed by neither a dot nor a
      slash. */
  function Extname(p: string): (r: string)
    ensures r == "" || IsExtension(r)
    ensures var b := Basename(p); HasSuffix(b, r) && |b| - |r| == ExtensionStart(b)
  {
    var base := Basename(p);
    SuffixFromExtensionStart(base);
    base[ExtensionStart(base)..]
  }

  /** `path.basename(p, path.extname(p))`: the last segment without its
      extension. A segment with an extension keeps a non-empty stem. */
  function Stem(p: string): (r: string)
    ensures r + Extname(p) == Basename(p)
    ensures Extname(p) != "" ==> r != ""
    ensures '/' !in r
  {
    var base := Basename(p);
    SegmentSplit(base);
    base[..ExtensionStart(base)]
  }

  /** A segment is its stem followed by its extension; the stem has no
      slash, and it is not empty when the extension is not. */
  lemma SegmentSplit(seg: string)
    requires '/' !in seg
    ensures var i := ExtensionStart(seg);
      seg[..i] + seg[i..] == seg && '/' !in seg[..i] && (seg[i..] != "" ==> seg[..i] != "")
  {
    var i := ExtensionStart(seg);
    assert forall j :: 0 <= j < i ==> seg[..i][j] == seg[j];
  }

  /** A segment from its extension start on is empty or an extension. */
  lemma SuffixFromExtensionStart(seg: string)
    requires '/' !in seg
    ensures var e := seg[ExtensionStart(seg)..]; e == "" || IsExtension(e)
  {
    var k := ExtensionStart(seg);
    var e := seg[k..];
    assert forall i :: 0 <= i < |e| ==> e[i] == seg[k + i];
  }

  /** The basename of "dir/name" is "name" when the name has no slash. */
  lemma BasenameOfJoin(dir: string, name: string)
    requires name != "" && '/' !in name
    ensures Basename(dir + "/" + name) == name
  {
    var p := dir + "/" + name;
    assert p[|p| - 1] == name[|name| - 1];
    assert TrimTrailingSlashes(p) == p;
    assert p[|dir|] == '/';
    assert p[|dir| + 1..] == name;
    assert forall m :: |dir| < m < |p| ==> p[m] == name[m - |dir| - 1];
    assert LastIndexOf(p, '/') == |dir|;
  }

  /** What `path.extname` can return when it is not empty. */
  predicate IsExtension(e: string) {
    e != "" && e[0] == '.' && (forall j :: 0 < j < |e| ==> e[j] != '.') && '/' !in e
  }

  /** A path without a slash is its own basename. */
  lemma BasenameWithoutSlash(p: string)
    requires '/' !in p
    ensures Basename(p) == p
  {
    if |p| > 0 {
      assert p[|p| - 1] in p;
    }
    assert TrimTrailingSlashes(p) == p;
  }

  /** A file name made of a non-empty name and an extension has that
      extension, unless it is "..". */
  lemma ExtnameOfNamedFile(name: string, ext: string)
    requires name != "" && IsExtension(ext) && '/' !in name
    requires name + ext != ".."
    ensures Extname(name + ext) == ext
  {
    var s := name + ext;
    assert '/' !in s;
    ExtnameOfSegment(s);
    ExtensionStartsAtLastDot(name, ext);
    assert s[|name|..] == ext;
  }

  /** The extension of a path without slashes is found in the path itself. */
  lemma ExtnameOfSegment(s: string)
    requires '/' !in s
    ensures Extname(s) == s[ExtensionStart(s)..]
  {
    BasenameWithoutSlash(s);
  }

  lemma ExtensionStartsAtLastDot(name: string, ext: string)
    requires name != "" && IsExtension(ext)
    requires name + ext != ".."
    ensures ExtensionStart(name + ext) == |name|
  {
    var s := name + ext;
    assert s[|name|] == '.';
    assert forall j :: |name| < j < |s| ==> s[j] == ext[j - |name|];
    assert LastIndexOf(s, '.') == |name|;
  }
}
