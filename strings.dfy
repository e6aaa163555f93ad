/** String helpers shared by the four scripts: the parts of JavaScript's
    `String.prototype` (`split`, `join`, `trim`/`split(/\s+/)`) and of number
    formatting that the scripts rely on. */
module Strings {

  predicate HasPrefix(s: string, prefix: string) {
    |prefix| <= |s| && s[..|prefix|] == prefix
  }

  predicate HasSuffix(s: string, suffix: string) {
    |suffix| <= |s| && s[|s| - |suffix|..] == suffix
  }

  /** Index of the first occurrence of `c` in `s`, or -1 (`indexOf`). */
  function IndexOf(s: string, c: char): (r: int)
    ensures -1 <= r < |s|
    ensures r == -1 <==> c !in s
    ensures 0 <= r ==> s[r] == c && c !in s[..r]
  {
    if |s| == 0 then -1
    else if s[0] == c then 0
    else
      var k := IndexOf(s[1..], c);
      if k < 0 then -1
      else
        assert s[..k + 1] == [s[0]] + s[1..][..k];
        k + 1
  }

  /** Index of the last occurrence of `c` in `s`, or -1 (`lastIndexOf`). */
  function LastIndexOf(s: string, c: char): (r: int)
    ensures -1 <= r < |s|
    ensures r == -1 <==> c !in s
    ensures 0 <= r ==> s[r] == c && c !in s[r + 1..]
  {
    if |s| == 0 then -1
    else if s[|s| - 1] == c then |s| - 1
    else
      var k := LastIndexOf(s[..|s| - 1], c);
      assert s[..|s| - 1] + [s[|s| - 1]] == s;
      k
  }

  /** `parts.join(sep)`. */
  function Join(parts: seq<string>, sep: string): string
  {
    if |parts| == 0 then ""
    else if |parts| == 1 then parts[0]
    else parts[0] + sep + Join(parts[1..], sep)
  }

  lemma JoinCons(first: string, rest: seq<string>, sep: string)
    requires |rest| >= 1
    ensures Join([first] + rest, sep) == first + sep + Join(rest, sep)
  {
    assert ([first] + rest)[1..] == rest;
  }

  /** `s.split(c)` for a one-character separator: every piece between two
      separators, always at least one piece. */
  function Split(s: string, c: char): (r: seq<string>)
    ensures |r| >= 1
    ensures forall k :: 0 <= k < |r| ==> c !in r[k]
    decreases |s|
  {
    var i := IndexOf(s, c);
    if i < 0 then [s] else [s[..i]] + Split(s[i + 1..], c)
  }

  /** The first piece of a split is the text before the first separator. */
  lemma SplitHead(s: string, c: char)
    ensures var head := Split(s, c)[0];
      HasPrefix(s, head) && c !in head && (|head| == |s| || s[|head|] == c)
  {
  }

  /** Splitting what was joined with a separator absent from every part gives
      the parts back, in order. */
  lemma {:induction false} SplitJoin(parts: seq<string>, c: char)
    requires |parts| >= 1
    requires forall k :: 0 <= k < |parts| ==> c !in parts[k]
    ensures Split(Join(parts, [c]), c) == parts
  {
    if |parts| == 1 {
      assert IndexOf(parts[0], c) == -1;
    } else {
      var p, rest := parts[0], Join(parts[1..], [c]);
      var s := p + [c] + rest;
      assert s == Join(parts, [c]);
      assert s[..|p|] == p;
      assert c !in s[..|p|];
      assert s[|p|] == c;
      assert IndexOf(s, c) == |p|;
      assert s[|p| + 1..] == rest;
      SplitJoin(parts[1..], c);
      assert [p] + parts[1..] == parts;
    }
  }

  /** A header line followed by more lines splits back into the header and
      those lines. */
  lemma SplitHeaderAndLines(header: string, lines: seq<string>, c: char)
    requires |lines| >= 1
    requires c !in header
    requires forall k :: 0 <= k < |lines| ==> c !in lines[k]
    ensures Split(header + [c] + Join(lines, [c]), c) == [header] + lines
  {
    var all := [header] + lines;
    JoinCons(header, lines, [c]);
    forall k | 0 <= k < |all| ensures c !in all[k] {
      if k > 0 {
        assert all[k] == lines[k - 1];
      }
    }
    SplitJoin(all, c);
  }

  /** The characters JavaScript's `\s` and `trim()` treat as white space
      (WhiteSpace and LineTerminator of ECMAScript). */
  predicate IsJsSpace(c: char) {
    c == '\t' || c == '\n' || c == '\U{000B}' || c == '\U{000C}' || c == '\r' || c == ' '
    || c == '\U{00A0}' || c == '\U{1680}' || ('\U{2000}' <= c <= '\U{200A}')
    || c == '\U{2028}' || c == '\U{2029}' || c == '\U{202F}' || c == '\U{205F}'
    || c == '\U{3000}' || c == '\U{FEFF}'
  }

  predicate NoSpace(s: string) {
    forall i :: 0 <= i < |s| ==> !IsJsSpace(s[i])
  }

  /** `s.trimStart()`. */
  function TrimStart(s: string): (r: string)
    ensures HasSuffix(s, r)
    ensures r == "" || !IsJsSpace(r[0])
    ensures forall k :: 0 <= k < |s| - |r| ==> IsJsSpace(s[k])
  {
    if |s| > 0 && IsJsSpace(s[0]) then TrimStart(s[1..]) else s
  }

  /** `s.trimEnd()`. */
  function TrimEnd(s: string): (r: string)
    ensures HasPrefix(s, r)
    ensures r == "" || !IsJsSpace(r[|r| - 1])
    ensures forall k :: |r| <= k < |s| ==> IsJsSpace(s[k])
  {
    if |s| > 0 && IsJsSpace(s[|s| - 1]) then TrimEnd(s[..|s| - 1]) else s
  }

  /** The number of white-space characters at the start of `s`. */
  function LeadingSpaces(s: string): (n: nat)
    ensures n <= |s|
    ensures forall k :: 0 <= k < n ==> IsJsSpace(s[k])
    ensures n < |s| ==> !IsJsSpace(s[n])
  {
    if |s| > 0 && IsJsSpace(s[0]) then 1 + LeadingSpaces(s[1..]) else 0
  }

  /** `s.trim()`: white space removed at both ends, and only there: the
      result is the slice of `s` after its leading white space, and only
      white space follows it. */
  function Trim(s: string): (r: string)
    ensures r == "" || (!IsJsSpace(r[0]) && !IsJsSpace(r[|r| - 1]))
    ensures var a := LeadingSpaces(s);
      a + |r| <= |s| && r == s[a..a + |r|] && forall k :: a + |r| <= k < |s| ==> IsJsSpace(s[k])
    ensures NoSpace(s) ==> r == s
  {
    TrimStartIsSlice(s);
    var t := TrimStart(s);
    var r := TrimEnd(t);
    var a := LeadingSpaces(s);
    assert t == s[a..];
    assert r == t[..|r|];
    r
  }

  lemma {:induction false} TrimStartIsSlice(s: string)
    ensures TrimStart(s) == s[LeadingSpaces(s)..]
  {
    if |s| > 0 && IsJsSpace(s[0]) {
      TrimStartIsSlice(s[1..]);
    }
  }

  /** Length of the longest prefix of `s` without white space. */
  function WordLength(s: string): (n: nat)
    ensures n <= |s|
    ensures NoSpace(s[..n])
    ensures n < |s| ==> IsJsSpace(s[n])
  {
    if |s| == 0 || IsJsSpace(s[0]) then 0
    else
      var k := WordLength(s[1..]);
      assert s[..k + 1] == [s[0]] + s[1..][..k];
      k + 1
  }

  function Concat(parts: seq<string>): string {
    if |parts| == 0 then "" else parts[0] + Concat(parts[1..])
  }

  function RemoveSpaces(s: string): string {
    if |s| == 0 then "" else (if IsJsSpace(s[0]) then "" else [s[0]]) + RemoveSpaces(s[1..])
  }

  lemma {:induction false} RemoveSpacesAppend(a: string, b: string)
    ensures RemoveSpaces(a + b) == RemoveSpaces(a) + RemoveSpaces(b)
  {
    if |a| > 0 {
      assert (a + b)[1..] == a[1..] + b;
      RemoveSpacesAppend(a[1..], b);
    } else {
      assert a + b == b;
    }
  }

  lemma {:induction false} RemoveSpacesOfWord(w: string)
    requires NoSpace(w)
    ensures RemoveSpaces(w) == w
  {
    if |w| > 0 {
      RemoveSpacesOfWord(w[1..]);
      assert [w[0]] + w[1..] == w;
    }
  }

  /** `s.trim().split(/\s+/).filter(Boolean)`: the maximal runs of
      non-white-space characters, in order. Each token is non-empty and free of
      white space, and together the tokens hold every other character of `s`
      in order. */
  function Tokens(s: string): (r: seq<string>)
    ensures forall k :: 0 <= k < |r| ==> |r[k]| > 0 && NoSpace(r[k])
    ensures Concat(r) == RemoveSpaces(s)
    decreases |s|
  {
    if |s| == 0 then []
    else if IsJsSpace(s[0]) then
      assert RemoveSpaces(s) == RemoveSpaces(s[1..]);
      Tokens(s[1..])
    else
      var n := WordLength(s);
      var rest := Tokens(s[n..]);
      assert s == s[..n] + s[n..];
      RemoveSpacesAppend(s[..n], s[n..]);
      RemoveSpacesOfWord(s[..n]);
      [s[..n]] + rest
  }

  /** The length of the first word is fixed by where the first white space
      is. */
  lemma WordLengthAt(s: string, k: nat)
    requires k <= |s| && NoSpace(s[..k])
    requires k < |s| ==> IsJsSpace(s[k])
    ensures WordLength(s) == k
  {
    var n := WordLength(s);
    assert forall i :: 0 <= i < n ==> s[..n][i] == s[i];
    assert forall i :: 0 <= i < k ==> s[..k][i] == s[i];
  }

  /** A word on its own is one token. */
  lemma TokensOfWord(w: string)
    requires w != "" && NoSpace(w)
    ensures Tokens(w) == [w]
  {
    assert w[..|w|] == w;
    WordLengthAt(w, |w|);
    assert w[|w|..] == "";
  }

  /** White space alone gives no token. */
  lemma {:induction false} TokensOfSpaces(s: string)
    requires forall k :: 0 <= k < |s| ==> IsJsSpace(s[k])
    ensures Tokens(s) == []
  {
    if |s| > 0 {
      TokensOfSpaces(s[1..]);
    }
  }

  /** White space separates tokens: the tokens of `a`, a white-space
      character and `b` are those of `a` followed by those of `b`. With
      `TokensOfWord` and `TokensOfSpaces` this fixes the tokens of every
      string: the maximal runs of other characters, in order. */
  lemma {:induction false} TokensAtSpace(a: string, c: char, b: string)
    requires IsJsSpace(c)
    ensures Tokens(a + [c] + b) == Tokens(a) + Tokens(b)
    decreases |a|
  {
    var s := a + [c] + b;
    if |a| == 0 {
      assert s == [c] + b && s[1..] == b;
    } else if IsJsSpace(a[0]) {
      assert s[1..] == a[1..] + [c] + b;
      TokensAtSpace(a[1..], c, b);
    } else {
      var m := WordLength(a);
      assert s[..m] == a[..m];
      if m == |a| {
        assert s[|a|] == c;
        WordLengthAt(s, |a|);
        assert s[|a|..] == [c] + b && ([c] + b)[1..] == b;
        assert a[..m] == a && a[m..] == "";
      } else {
        assert s[m] == a[m];
        WordLengthAt(s, m);
        assert s[m..] == a[m..] + [c] + b;
        TokensAtSpace(a[m..], c, b);
      }
    }
  }

  /** The changed-file list both `CHANGED_FILES` consumers read: an unset
      variable gives no files. */
  function ChangedFiles(env: map<string, string>): (files: seq<string>)
    ensures "CHANGED_FILES" !in env ==> files == []
    ensures "CHANGED_FILES" in env ==> files == Tokens(env["CHANGED_FILES"])
    ensures forall k :: 0 <= k < |files| ==> |files[k]| > 0 && NoSpace(files[k])
  {
    if "CHANGED_FILES" in env then Tokens(env["CHANGED_FILES"]) else []
  }

  function DigitChar(d: nat): char
    requires d < 10
  {
    ('0' as int + d) as char
  }

  predicate IsDigit(c: char) { '0' <= c <= '9' }

  /** The number a string of decimal digits denotes. */
  function DigitsValue(s: string): int
    requires forall i :: 0 <= i < |s| ==> IsDigit(s[i])
  {
    if |s| == 0 then 0
    else DigitsValue(s[..|s| - 1]) * 10 + (s[|s| - 1] as int - '0' as int)
  }

  /** JavaScript's decimal rendering of a non-negative integer: the digits
      of `n`, without leading zeros except for 0 itself. */
  function NatToString(n: nat): (r: string)
    ensures |r| >= 1
    ensures forall i :: 0 <= i < |r| ==> IsDigit(r[i])
    ensures DigitsValue(r) == n
    ensures |r| > 1 ==> r[0] != '0'
  {
    if n < 10 then [DigitChar(n)]
    else
      var s := NatToString(n / 10);
      var r := s + [DigitChar(n % 10)];
      assert r[..|r| - 1] == s;
      r
  }

  /** `String(n)` for an integer. */
  function IntToString(n: int): string {
    if n < 0 then "-" + NatToString(-n) else NatToString(n)
  }

  /** `toLowerCase()` on ASCII letters; every other character is kept. */
  function ToLowerAscii(s: string): (r: string)
    ensures |r| == |s|
    ensures forall i :: 0 <= i < |s| ==> !('A' <= r[i] <= 'Z')
    ensures forall i :: 0 <= i < |s| && !('A' <= s[i] <= 'Z') ==> r[i] == s[i]
    ensures forall i :: 0 <= i < |s| && 'A' <= s[i] <= 'Z' ==> r[i] as int == s[i] as int - 'A' as int + 'a' as int
  {
    if |s| == 0 then ""
    else
      var c := s[0];
      var lc := if 'A' <= c <= 'Z' then (c as int + 32) as char else c;
      [lc] + ToLowerAscii(s[1..])
  }
}
