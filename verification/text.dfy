/**
  The pieces of Go's `strings`, `path/filepath` and `strconv` packages that the
  git adapter and the migrator rely on, written over `string` (a sequence of
  Unicode scalar values), with the properties the engine needs from them.
 */
module Text {
  import opened Common

  /** Go's `unicode.IsSpace`: the Unicode White_Space characters. */
  predicate IsSpace(c: char) {
    c == ' ' || c == '\t' || c == '\n' || c == '\U{0B}' || c == '\U{0C}' || c == '\r'
    || c == '\U{85}' || c == '\U{A0}' || c == '\U{1680}'
    || ('\U{2000}' <= c <= '\U{200A}')
    || c == '\U{2028}' || c == '\U{2029}' || c == '\U{202F}' || c == '\U{205F}' || c == '\U{3000}'
  }

  predicate AllSpace(s: string) {
    forall i :: 0 <= i < |s| ==> IsSpace(s[i])
  }

  predicate NoSpace(s: string) {
    forall i :: 0 <= i < |s| ==> !IsSpace(s[i])
  }

  // ---------------------------------------------------------------------------
  // strings.Split / strings.Join with a one-character separator

  /** `strings.Split(s, sep)`: the pieces between separators; never empty. */
  function Split(s: string, sep: char): (parts: seq<string>)
    ensures |parts| >= 1
    ensures forall i :: 0 <= i < |parts| ==> sep !in parts[i]
  {
    if s == [] then [[]]
    else
      var rest := Split(s[1..], sep);
      if s[0] == sep then [[]] + rest else [[s[0]] + rest[0]] + rest[1..]
  }

  /** `strings.Join(parts, sep)`. */
  function Join(parts: seq<string>, sep: char): string {
    if |parts| == 0 then []
    else if |parts| == 1 then parts[0]
    else parts[0] + [sep] + Join(parts[1..], sep)
  }

  /** Splitting loses nothing: joining the pieces gives the text back. */
  lemma {:induction false} JoinSplit(s: string, sep: char)
    ensures Join(Split(s, sep), sep) == s
  {
    if s != [] {
      var rest := Split(s[1..], sep);
      JoinSplit(s[1..], sep);
      if s[0] == sep {
        assert Split(s, sep) == [[]] + rest;
        assert ([[]] + rest)[1..] == rest;
      } else if |rest| == 1 {
        assert Split(s, sep) == [[s[0]] + rest[0]];
      } else {
        var parts := Split(s, sep);
        assert parts == [[s[0]] + rest[0]] + rest[1..];
        assert parts[1..] == rest[1..];
        assert Join(rest, sep) == rest[0] + [sep] + Join(rest[1..], sep);
        assert s == [s[0]] + s[1..];
      }
    }
  }

  /** Joining separator-free pieces and splitting again gives the same pieces. */
  lemma {:induction false} SplitJoin(parts: seq<string>, sep: char)
    requires |parts| >= 1
    requires forall i :: 0 <= i < |parts| ==> sep !in parts[i]
    ensures Split(Join(parts, sep), sep) == parts
  {
    if |parts| == 1 {
      SplitNoSep(parts[0], sep);
    } else {
      SplitJoin(parts[1..], sep);
      SplitPrefix(parts[0], Join(parts[1..], sep), sep);
      assert parts == [parts[0]] + parts[1..];
    }
  }

  lemma {:induction false} SplitNoSep(s: string, sep: char)
    requires sep !in s
    ensures Split(s, sep) == [s]
  {
    if s != [] {
      SplitNoSep(s[1..], sep);
      assert s == [s[0]] + s[1..];
    }
  }

  lemma {:induction false} SplitPrefix(w: string, t: string, sep: char)
    requires sep !in w
    ensures Split(w + [sep] + t, sep) == [w] + Split(t, sep)
  {
    if w == [] {
      assert [] + [sep] + t == [sep] + t;
      assert ([sep] + t)[1..] == t;
    } else {
      var s := w + [sep] + t;
      assert s[1..] == w[1..] + [sep] + t;
      SplitPrefix(w[1..], t, sep);
      assert [w[0]] + w[1..] == w;
    }
  }

  // ---------------------------------------------------------------------------
  // Trimming and strings.Fields

  /** The number of white-space characters `s` starts with. */
  function LeadingSpace(s: string): (n: nat)
    ensures n <= |s| && AllSpace(s[..n])
    ensures n == |s| || !IsSpace(s[n])
  {
    if s != [] && IsSpace(s[0]) then 1 + LeadingSpace(s[1..]) else 0
  }

  /** The number of white-space characters `s` ends with. */
  function TrailingSpace(s: string): (n: nat)
    ensures n <= |s| && AllSpace(s[|s| - n..])
    ensures n == |s| || !IsSpace(s[|s| - n - 1])
  {
    if s != [] && IsSpace(s[|s| - 1]) then 1 + TrailingSpace(s[..|s| - 1]) else 0
  }

  /** Drops leading white space. */
  function TrimLeft(s: string): (r: string)
    ensures r == [] || !IsSpace(r[0])
  {
    s[LeadingSpace(s)..]
  }

  /** Drops trailing white space. */
  function TrimRight(s: string): (r: string)
    ensures r == [] || !IsSpace(r[|r| - 1])
  {
    s[..|s| - TrailingSpace(s)]
  }

  /** `strings.TrimSpace`: the text between leading and trailing white space. */
  function TrimSpace(s: string): (r: string)
    ensures |r| <= |s|
    ensures r == [] || (!IsSpace(r[0]) && !IsSpace(r[|r| - 1]))
  {
    var l := TrimLeft(s);
    var r := TrimRight(l);
    assert r != [] ==> r[0] == l[0];
    r
  }

  lemma {:induction false} LeadingSpaces(pre: string, s: string)
    requires AllSpace(pre)
    requires s == [] || !IsSpace(s[0])
    ensures LeadingSpace(pre + s) == |pre|
  {
    if pre != [] {
      assert (pre + s)[1..] == pre[1..] + s;
      LeadingSpaces(pre[1..], s);
    } else {
      assert pre + s == s;
    }
  }

  lemma {:induction false} TrailingSpaces(s: string, post: string)
    requires AllSpace(post)
    requires s == [] || !IsSpace(s[|s| - 1])
    ensures TrailingSpace(s + post) == |post|
  {
    if post != [] {
      assert (s + post)[..|s + post| - 1] == s + post[..|post| - 1];
      TrailingSpaces(s, post[..|post| - 1]);
    } else {
      assert s + post == s;
    }
  }

  /** Surrounding a trimmed text with white space and trimming gives it back. */
  lemma TrimSpacePadded(pre: string, s: string, post: string)
    requires AllSpace(pre) && AllSpace(post)
    requires s == [] || (!IsSpace(s[0]) && !IsSpace(s[|s| - 1]))
    ensures TrimSpace(pre + s + post) == s
  {
    if s == [] {
      assert pre + s + post == pre + post;
      assert AllSpace(pre + post);
      LeadingSpaces(pre + post, []);
      assert pre + post + [] == pre + post;
    } else {
      assert pre + s + post == pre + (s + post);
      LeadingSpaces(pre, s + post);
      assert TrimLeft(pre + s + post) == s + post;
      TrailingSpaces(s, post);
    }
  }

  /** The length of the longest prefix of `s` holding no white space. */
  function WordLength(s: string): (n: nat)
    ensures n <= |s| && NoSpace(s[..n])
    ensures n == |s| || IsSpace(s[n])
  {
    if s == [] || IsSpace(s[0]) then 0 else 1 + WordLength(s[1..])
  }

  /**
    `strings.Fields`: the maximal runs of non-white-space characters, in
    order; white space only (or nothing) gives no fields.
   */
  function Fields(s: string): (fs: seq<string>)
    ensures forall i :: 0 <= i < |fs| ==> fs[i] != [] && NoSpace(fs[i])
    decreases |s|
  {
    var t := TrimLeft(s);
    if t == [] then []
    else
      var n := WordLength(t);
      assert n != 0 by { assert !IsSpace(t[0]); }
      [t[..n]] + Fields(t[n..])
  }

  lemma {:induction false} WordLengthOf(w: string, t: string)
    requires NoSpace(w)
    requires t == [] || IsSpace(t[0])
    ensures WordLength(w + t) == |w|
  {
    if w != [] {
      assert (w + t)[1..] == w[1..] + t;
      WordLengthOf(w[1..], t);
    } else {
      assert w + t == t;
    }
  }

  lemma FieldsSkipSpace(c: char, t: string)
    requires IsSpace(c)
    ensures Fields([c] + t) == Fields(t)
  {
    LeadingSpaces([c] + t[..LeadingSpace(t)], t[LeadingSpace(t)..]);
    assert [c] + t == [c] + t[..LeadingSpace(t)] + t[LeadingSpace(t)..];
    assert TrimLeft([c] + t) == TrimLeft(t);
  }

  lemma FieldsOfWord(w: string)
    requires w != [] && NoSpace(w)
    ensures Fields(w) == [w]
  {
    LeadingSpaces([], w);
    assert [] + w == w;
    WordLengthOf(w, []);
    assert w + [] == w;
    assert w[|w|..] == [];
    assert TrimLeft([]) == [];
  }

  lemma FieldsCons(w: string, c: char, t: string)
    requires w != [] && NoSpace(w) && IsSpace(c)
    ensures Fields(w + [c] + t) == [w] + Fields(t)
  {
    var s := w + [c] + t;
    LeadingSpaces([], s);
    assert [] + s == s;
    assert TrimLeft(s) == s;
    assert s == w + ([c] + t);
    WordLengthOf(w, [c] + t);
    assert s[..|w|] == w;
    assert s[|w|..] == [c] + t;
    FieldsSkipSpace(c, t);
  }

  /**
    A line written as non-empty, space-free words separated by one white-space
    character (git's `M<TAB>path`) splits back into exactly those words.
   */
  lemma {:induction false} FieldsOfJoin(words: seq<string>, sep: char)
    requires IsSpace(sep)
    requires forall i :: 0 <= i < |words| ==> words[i] != [] && NoSpace(words[i])
    ensures Fields(Join(words, sep)) == words
  {
    if |words| == 1 {
      FieldsOfWord(words[0]);
      assert [words[0]] == words;
    } else if |words| > 1 {
      var w, rest := words[0], words[1..];
      var tail := Join(rest, sep);
      assert Join(words, sep) == w + [sep] + tail;
      FieldsCons(w, sep, tail);
      forall i | 0 <= i < |rest|
        ensures rest[i] != [] && NoSpace(rest[i])
      {
        assert rest[i] == words[i + 1];
      }
      FieldsOfJoin(rest, sep);
      assert [w] + rest == words;
    }
  }

  // ---------------------------------------------------------------------------
  // Prefix, suffix, containment

  predicate HasPrefix(s: string, p: string) {
    |p| <= |s| && s[..|p|] == p
  }

  predicate HasSuffix(s: string, p: string) {
    |p| <= |s| && s[|s| - |p|..] == p
  }

  /** `strings.Contains`. */
  predicate Contains(s: string, sub: string) {
    exists i :: 0 <= i <= |s| && HasPrefix(s[i..], sub)
  }

  // ---------------------------------------------------------------------------
  // Byte length

  /** The number of bytes UTF-8 uses for `c`. */
  function Utf8Width(c: char): (n: nat)
    ensures 1 <= n <= 4
    ensures n == 1 <==> c as int < 0x80
  {
    if c as int < 0x80 then 1
    else if c as int < 0x800 then 2
    else if c as int < 0x1_0000 then 3
    else 4
  }

  /** Go's `len(s)` on a string: the length of its UTF-8 encoding, not its number of characters. */
  function ByteLength(s: string): (n: nat)
    ensures |s| <= n <= 4 * |s|
    ensures n == |s| <==> forall i :: 0 <= i < |s| ==> s[i] as int < 0x80
  {
    if s == [] then 0
    else
      var n := Utf8Width(s[0]) + ByteLength(s[1..]);
      assert forall i :: 1 <= i < |s| ==> s[1..][i - 1] == s[i];
      n
  }

  // ---------------------------------------------------------------------------
  // path/filepath (Unix separator)

  /** Index of the last `c` in `s`, or -1. */
  function LastIndexOf(s: string, c: char): (r: int)
    ensures -1 <= r < |s|
    ensures r >= 0 ==> s[r] == c
    ensures forall k :: r < k < |s| ==> s[k] != c
  {
    if s == [] then -1
    else if s[|s| - 1] == c then |s| - 1
    else LastIndexOf(s[..|s| - 1], c)
  }

  function TrimTrailingSlashes(s: string): (r: string)
    ensures |r| <= |s| && r == s[..|r|]
    ensures r == [] || r[|r| - 1] != '/'
    ensures forall k :: |r| <= k < |s| ==> s[k] == '/'
  {
    if s != [] && s[|s| - 1] == '/' then TrimTrailingSlashes(s[..|s| - 1]) else s
  }

  /**
    `filepath.Base`: the last element of a path, after dropping trailing
    slashes; "." for the empty path and "/" for a path of slashes only.
   */
  function Base(path: string): (r: string)
    ensures r != []
    ensures r == "/" || '/' !in r
  {
    if path == [] then "."
    else
      var p := TrimTrailingSlashes(path);
      if p == [] then "/"
      else p[LastIndexOf(p, '/') + 1..]
  }

  /** The last element of `dir/name` is `name`, whatever the directory. */
  lemma BaseOfJoin(dir: string, name: string)
    requires name != [] && '/' !in name
    ensures Base(dir + "/" + name) == name
    ensures Base(name) == name
  {
    var p := dir + "/" + name;
    assert TrimTrailingSlashes(p) == p by {
      assert p[|p| - 1] == name[|name| - 1];
    }
    var i := LastIndexOf(p, '/');
    assert p[|dir|] == '/';
    assert i >= |dir|;
    assert forall k :: |dir| < k < |p| ==> p[k] == name[k - |dir| - 1];
    assert i == |dir|;
    assert p[i + 1..] == name;
    assert TrimTrailingSlashes(name) == name;
    assert LastIndexOf(name, '/') == -1;
  }

  /** A path without its trailing slashes; "/" for a non-empty path of slashes only. */
  function CleanTrailing(path: string): (r: string)
    requires path != []
    ensures r != [] && (r == "/" || r[|r| - 1] != '/')
  {
    var p := TrimTrailingSlashes(path);
    if p == [] then "/" else p
  }

  /** The directory of `dir/name` is `dir` (as `CleanTrailing` shows it), when `name` holds no slash. */
  lemma DirOfJoin(dir: string, name: string)
    requires dir == [] || dir[|dir| - 1] != '/'
    requires name != [] && '/' !in name
    ensures Dir(dir + "/" + name) == if dir == [] then "/" else dir
  {
    var p := dir + "/" + name;
    assert p[|dir|] == '/';
    assert forall k :: |dir| < k < |p| ==> p[k] == name[k - |dir| - 1];
    var i := LastIndexOf(p, '/');
    assert i == |dir|;
    assert p[..i + 1] == dir + "/";
    assert TrimTrailingSlashes(dir + "/") == TrimTrailingSlashes(dir) by {
      assert (dir + "/")[..|dir|] == dir;
    }
  }

  /**
    `filepath.Dir`: every element but the last. Go cleans the remaining
    prefix; for the clean relative paths git prints, cleaning only removes the
    trailing slashes, which is what this does.
   */
  function Dir(path: string): (r: string)
    ensures r != []
  {
    var i := LastIndexOf(path, '/');
    var p := TrimTrailingSlashes(path[..i + 1]);
    if i < 0 then "."
    else if p == [] then "/"
    else p
  }

  // ---------------------------------------------------------------------------
  // strconv.ParseInt(s, 10, 64) and its inverse

  const INT64_MAX: int := 0x7FFF_FFFF_FFFF_FFFF
  const INT64_MIN: int := -0x8000_0000_0000_0000

  predicate IsDigit(c: char) { '0' <= c <= '9' }

  predicate AllDigits(s: string) {
    forall i :: 0 <= i < |s| ==> IsDigit(s[i])
  }

  function DigitValue(c: char): nat
    requires IsDigit(c)
  {
    c as int - '0' as int
  }

  /** The value of a string of decimal digits, most significant first. */
  function DecimalValue(s: string): nat
    requires AllDigits(s)
  {
    if s == [] then 0 else 10 * DecimalValue(s[..|s| - 1]) + DigitValue(s[|s| - 1])
  }

  /**
    `strconv.ParseInt(s, 10, 64)`: an optional sign and at least one decimal
    digit, nothing else, and a value that fits in 64 bits; None is Go's error.
   */
  function ParseInt64(s: string): (r: Option<int>)
    ensures r.Some? ==> INT64_MIN <= r.value <= INT64_MAX
  {
    if s == [] then None
    else
      var neg := s[0] == '-';
      var digits := if s[0] == '-' || s[0] == '+' then s[1..] else s;
      if digits == [] || !AllDigits(digits) then None
      else
        var n: int := DecimalValue(digits);
        if neg then (if n <= -INT64_MIN then Some(-n) else None)
        else (if n <= INT64_MAX then Some(n) else None)
  }

  function DigitChar(d: nat): (c: char)
    requires d < 10
    ensures IsDigit(c) && DigitValue(c) == d
  {
    ('0' as int + d) as char
  }

  /** The decimal digits of `n`, without leading zeros. */
  function Digits(n: nat): (s: string)
    ensures s != [] && AllDigits(s)
  {
    if n < 10 then [DigitChar(n)] else Digits(n / 10) + [DigitChar(n % 10)]
  }

  /** `strconv.FormatInt(n, 10)`. */
  function FormatInt(n: int): string {
    if n < 0 then "-" + Digits(-n) else Digits(n)
  }

  lemma {:induction false} DigitsValue(n: nat)
    ensures DecimalValue(Digits(n)) == n
  {
    if n >= 10 {
      DigitsValue(n / 10);
      var s := Digits(n);
      assert s[..|s| - 1] == Digits(n / 10);
    }
  }

  /** Formatting a 64-bit integer and parsing it back gives the same integer. */
  lemma {:induction false} ParseFormat(n: int)
    requires INT64_MIN <= n <= INT64_MAX
    ensures ParseInt64(FormatInt(n)) == Some(n)
  {
    var s := FormatInt(n);
    if n < 0 {
      var d := Digits(-n);
      assert s == "-" + d;
      assert s[0] == '-' && s[1..] == d;
      DigitsValue(-n);
      assert DecimalValue(d) == -n <= -INT64_MIN;
    } else {
      assert s == Digits(n);
      assert IsDigit(s[0]);
      DigitsValue(n);
      assert DecimalValue(s) == n <= INT64_MAX;
    }
  }
}
