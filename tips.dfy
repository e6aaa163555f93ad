/** The data every script works on: a tip file is YAML front matter (a
    mapping from field name to a JavaScript value) plus an opaque markdown
    body, stored on disk under a path. The YAML codec itself is not modelled:
    a file on disk is already the decoded pair, or a reason why the codec or
    the read failed, and writing a pair back is assumed to decode to the same
    pair. */
module Tips {
  import opened Strings

  datatype Option<+T> = None | Some(value: T)

  /** The JavaScript values YAML front matter can decode to. Numbers are
      integers only; `Timestamp` is a YAML date, a JavaScript `Date` object,
      carrying what `String(date)` would render. */
  datatype Value =
    | Str(s: string)
    | Num(n: int)
    | Bool(b: bool)
    | Null
    | List(items: seq<Value>)
    | Obj(fields: map<string, Value>)
    | Timestamp(shown: string)

  type FrontMatter = map<string, Value>

  /** What reading and decoding a path yields. A missing path is simply
      absent from the disk. */
  datatype FileContent =
    | Tip(frontMatter: FrontMatter, body: string)
    | Undecodable(reason: string)

  type Disk = map<string, FileContent>

  /** JavaScript truthiness: `""`, `0`, `false` and `null` are falsy, every
      object is truthy. */
  predicate Truthy(v: Value) {
    match v
    case Str(s) => s != ""
    case Num(n) => n != 0
    case Bool(b) => b
    case Null => false
    case _ => true
  }

  /** `!frontMatter[key]` is false: the field is present and truthy
      (an absent field reads as `undefined`, which is falsy). */
  predicate FieldTruthy(fm: FrontMatter, key: string) {
    key in fm && Truthy(fm[key])
  }

  /** What reading field `key` yields: its value, or `None` for an
      absent field (JavaScript's `undefined`). */
  function Field(fm: FrontMatter, key: string): (v: Option<Value>)
    ensures v.Some? <==> key in fm
    ensures v.Some? ==> v.value == fm[key]
  {
    if key in fm then Some(fm[key]) else None
  }

  /** Dropping one key changes what the schema reads for that key only. */
  lemma FieldWithout(fm: FrontMatter, key: string, k: string)
    ensures Field(fm - {key}, k) == if k == key then None else Field(fm, k)
  {
    if k != key {
      assert (k in fm - {key}) == (k in fm);
    }
  }

  /** The string JavaScript's template literals and `String()` produce. */
  function JsString(v: Value): string
    decreases v, 1
  {
    match v
    case Str(s) => s
    case Num(n) => IntToString(n)
    case Bool(b) => if b then "true" else "false"
    case Null => "null"
    case List(items) => JoinElements(v, items)
    case Obj(_) => "[object Object]"
    case Timestamp(shown) => shown
  }

  /** `Array.prototype.join(",")`, which renders `null` elements as "". */
  function JoinElements(ghost parent: Value, items: seq<Value>): string
    requires forall i :: 0 <= i < |items| ==> items[i] < parent
    decreases parent, 0, |items|
  {
    if |items| == 0 then ""
    else
      var first := if items[0].Null? then "" else JsString(items[0]);
      if |items| == 1 then first else first + "," + JoinElements(parent, items[1..])
  }

  /** The type name the schema library reports in "Expected X, received Y". */
  function TypeName(v: Value): string {
    match v
    case Str(_) => "string"
    case Num(_) => "number"
    case Bool(_) => "boolean"
    case Null => "null"
    case List(_) => "array"
    case Obj(_) => "object"
    case Timestamp(_) => "date"
  }

  /** What `new URL(x)` exposes that the scripts read. */
  datatype Url = Url(hostname: string, pathname: string)

  /** WHATWG URL parsing, including JavaScript's conversion of a non-string
      argument to a string: `None` when `new URL(x)` throws. */
  type UrlParser = Value -> Option<Url>

  /** `a` is `b` with some elements dropped: order is preserved. */
  predicate IsSubsequence<T(==)>(a: seq<T>, b: seq<T>)
    decreases |b|
  {
    if |a| == 0 then true
    else if |b| == 0 then false
    else if a[0] == b[0] then IsSubsequence(a[1..], b[1..])
    else IsSubsequence(a, b[1..])
  }

  /** Dropping the first element of `b` keeps what `a` is a subsequence of. */
  lemma {:induction false} SubsequenceOfTail<T>(a: seq<T>, b: seq<T>)
    requires |b| > 0 && IsSubsequence(a, b[1..])
    ensures IsSubsequence(a, b)
    decreases |a| + |b|
  {
    if |a| > 0 && a[0] == b[0] {
      SubsequenceDropFirst(a, b[1..]);
    }
  }

  lemma {:induction false} SubsequenceDropFirst<T>(a: seq<T>, c: seq<T>)
    requires |a| > 0 && IsSubsequence(a, c)
    ensures IsSubsequence(a[1..], c)
    decreases |a| + |c|
  {
    assert |c| > 0;
    if a[0] != c[0] {
      SubsequenceDropFirst(a, c[1..]);
    }
    if |a| > 1 {
      SubsequenceOfTail(a[1..], c);
    }
  }

  /** Appending to the longer sequence keeps a subsequence. */
  lemma {:induction false} SubsequenceExtend<T>(a: seq<T>, b: seq<T>, x: T)
    requires IsSubsequence(a, b)
    ensures IsSubsequence(a, b + [x])
    decreases |b|
  {
    if |a| > 0 {
      assert (b + [x])[1..] == b[1..] + [x];
      if a[0] == b[0] {
        SubsequenceExtend(a[1..], b[1..], x);
      } else {
        SubsequenceExtend(a, b[1..], x);
      }
    }
  }

  /** Appending the same element to both keeps a subsequence. */
  lemma {:induction false} SubsequenceSnoc<T>(a: seq<T>, b: seq<T>, x: T)
    requires IsSubsequence(a, b)
    ensures IsSubsequence(a + [x], b + [x])
    decreases |b|
  {
    if |b| == 0 {
      assert a == [];
      assert ([x] + [])[1..] == [];
    } else {
      assert (b + [x])[1..] == b[1..] + [x];
      if |a| > 0 && a[0] == b[0] {
        assert (a + [x])[1..] == a[1..] + [x];
        SubsequenceSnoc(a[1..], b[1..], x);
      } else if |a| == 0 && b[0] == x {
        assert ([] + [x])[1..] == [];
      } else {
        SubsequenceSnoc(a, b[1..], x);
      }
    }
  }
}
