/** Text helpers with the exact semantics of the library calls the source
    uses: prefix/suffix tests, substring search, `explode`/`split` on one
    character, `implode`/`join`, PHP's `trim`, Rust's `str::trim` and the ASCII
    case folding of `to_lowercase` as far as it can matter for ASCII keywords. */
module Strings {
  import opened Wrappers

  predicate StartsWith(s: string, prefix: string) {
    |prefix| <= |s| && s[..|prefix|] == prefix
  }

  predicate EndsWith(s: string, suffix: string) {
    |suffix| <= |s| && s[|s| - |suffix|..] == suffix
  }

  /** `t` occurs in `s` starting at index `i`. */
  predicate OccursAt(s: string, t: string, i: nat) {
    i + |t| <= |s| && s[i..i + |t|] == t
  }

  /** Rust `str::contains(&str)` / PHP `str_contains`. */
  predicate ContainsStr(s: string, t: string) {
    exists i: nat | i <= |s| :: OccursAt(s, t, i)
  }

  /** Removing a prefix: Rust `strip_prefix`. */
  function StripPrefix(s: string, prefix: string): (r: Option<string>)
    ensures r.Some? <==> StartsWith(s, prefix)
    ensures r.Some? ==> prefix + r.value == s
  {
    if StartsWith(s, prefix) then Some(s[|prefix|..]) else None
  }

  /** PHP `explode($sep, $s)` and Rust `s.split(sep).collect()` for a
      one-character separator: n separators give n + 1 pieces. */
  function Split(s: string, sep: char): (parts: seq<string>)
    ensures |parts| >= 1
    ensures forall k :: 0 <= k < |parts| ==> sep !in parts[k]
    decreases |s|
  {
    if sep !in s then [s]
    else
      var i := IndexOf(s, sep);
      [s[..i]] + Split(s[i + 1..], sep)
  }

  /** Index of the first occurrence of `c`. */
  function IndexOf(s: string, c: char): (i: nat)
    requires c in s
    ensures i < |s| && s[i] == c && c !in s[..i]
  {
    if s[0] == c then 0 else 1 + IndexOf(s[1..], c)
  }

  /** PHP `implode($sep, $parts)` and Rust `parts.join(sep)`. */
  function Join(parts: seq<string>, sep: string): string
  {
    if |parts| == 0 then ""
    else if |parts| == 1 then parts[0]
    else parts[0] + sep + Join(parts[1..], sep)
  }

  /** Number of occurrences of character `c`. */
  function CountChar(s: string, c: char): nat
  {
    if |s| == 0 then 0 else (if s[0] == c then 1 else 0) + CountChar(s[1..], c)
  }

  lemma {:induction false} SplitCount(s: string, sep: char)
    ensures |Split(s, sep)| == CountChar(s, sep) + 1
    decreases |s|
  {
    if sep in s {
      var i := IndexOf(s, sep);
      SplitCount(s[i + 1..], sep);
      CountCharConcat(s[..i], s[i..], sep);
      CountCharConcat([s[i]], s[i + 1..], sep);
      assert s[i..] == [s[i]] + s[i + 1..];
      assert s == s[..i] + s[i..];
      CountCharAbsent(s[..i], sep);
    } else {
      CountCharAbsent(s, sep);
    }
  }

  lemma {:induction false} CountCharConcat(a: string, b: string, c: char)
    ensures CountChar(a + b, c) == CountChar(a, c) + CountChar(b, c)
  {
    if |a| > 0 {
      assert (a + b)[1..] == a[1..] + b;
      CountCharConcat(a[1..], b, c);
    } else {
      assert a + b == b;
    }
  }

  lemma {:induction false} CountCharAbsent(s: string, c: char)
    requires c !in s
    ensures CountChar(s, c) == 0
  {
    if |s| > 0 {
      assert c !in s[1..];
      CountCharAbsent(s[1..], c);
    }
  }

  /** Splitting a join on a separator that no part contains gives the parts
      back: the lines kept by a filter that joins with "\n" can be recovered. */
  lemma {:induction false} SplitJoin(parts: seq<string>, sep: char)
    requires |parts| >= 1
    requires forall k :: 0 <= k < |parts| ==> sep !in parts[k]
    ensures Split(Join(parts, [sep]), sep) == parts
    decreases |parts|
  {
    if |parts| == 1 {
    } else {
      var rest := Join(parts[1..], [sep]);
      var s := parts[0] + [sep] + rest;
      assert Join(parts, [sep]) == s;
      assert s[|parts[0]|] == sep;
      assert s[..|parts[0]|] == parts[0];
      assert sep in s;
      var i := IndexOf(s, sep);
      assert i == |parts[0]|;
      assert s[i + 1..] == rest;
      SplitJoin(parts[1..], sep);
    }
  }

  /** Characters PHP's `trim` strips by default: " \t\n\r\0\x0B". */
  predicate IsPhpTrimChar(c: char) {
    c == ' ' || c == '\t' || c == '\n' || c == '\r' || c == '\0' || c == '\U{000B}'
  }

  /** Characters with Unicode's White_Space property, which Rust's
      `str::trim` strips. */
  predicate IsRustWhitespace(c: char) {
    c == ' ' || c == '\t' || c == '\n' || c == '\U{000B}' || c == '\U{000C}' || c == '\r'
    || c == '\U{0085}' || c == '\U{00A0}' || c == '\U{1680}'
    || ('\U{2000}' <= c <= '\U{200A}') || c == '\U{2028}' || c == '\U{2029}'
    || c == '\U{202F}' || c == '\U{205F}' || c == '\U{3000}'
  }

  /** Number of leading characters `strip` accepts. */
  function LeadCount(s: string, strip: char -> bool): (n: nat)
    ensures n <= |s|
    ensures forall k :: 0 <= k < n ==> strip(s[k])
    ensures n < |s| ==> !strip(s[n])
  {
    if |s| > 0 && strip(s[0]) then 1 + LeadCount(s[1..], strip) else 0
  }

  function TrimRight(s: string, strip: char -> bool): (r: string)
    ensures |r| <= |s| && r == s[..|r|]
    ensures |r| > 0 ==> !strip(r[|r| - 1])
    ensures forall k :: |r| <= k < |s| ==> strip(s[k])
  {
    if |s| > 0 && strip(s[|s| - 1]) then TrimRight(s[..|s| - 1], strip) else s
  }

  /** Strips `strip` characters at both ends; the result is the contiguous
      piece of the input that starts after the leading run of them and
      neither starts nor ends with one. */
  function Trim(s: string, strip: char -> bool): (r: string)
    ensures LeadCount(s, strip) + |r| <= |s|
    ensures r == s[LeadCount(s, strip)..LeadCount(s, strip) + |r|]
    ensures |r| > 0 ==> !strip(r[0]) && !strip(r[|r| - 1])
  {
    TrimRight(s[LeadCount(s, strip)..], strip)
  }

  /** PHP `trim($s)`. */
  function PhpTrim(s: string): string { Trim(s, IsPhpTrimChar) }

  /** Rust `str::trim`. */
  function RustTrim(s: string): string { Trim(s, IsRustWhitespace) }

  /** Trimming a text that neither starts nor ends with a stripped
      character changes nothing. */
  lemma TrimUnchanged(s: string, strip: char -> bool)
    requires |s| == 0 || (!strip(s[0]) && !strip(s[|s| - 1]))
    ensures Trim(s, strip) == s
  {
    assert LeadCount(s, strip) == 0;
    assert s[0..] == s;
  }

  /** Rust's `trim` removes the line end of a one-line file. */
  lemma RustTrimLineEnd(s: string)
    requires |s| > 0 && !IsRustWhitespace(s[0]) && !IsRustWhitespace(s[|s| - 1])
    ensures RustTrim(s + "\n") == s
  {
    var t := s + "\n";
    assert LeadCount(t, IsRustWhitespace) == 0;
    assert t[0..] == t;
    assert t[..|t| - 1] == s;
    assert TrimRight(t, IsRustWhitespace) == TrimRight(s, IsRustWhitespace);
  }

  /** Rust's `to_lowercase`, as far as a comparison with an ASCII keyword can
      see it: ASCII capitals fold to lower case and the Kelvin sign U+212A folds
      to `k`; every other character either is unchanged or folds to
      non-ASCII text, which no ASCII keyword equals. */
  function LowerForKeyword(c: char): char {
    if 'A' <= c <= 'Z' then (c as int + 32) as char
    else if c == '\U{212A}' then 'k'
    else c
  }

  function ToLowerForKeyword(s: string): (r: string)
    ensures |r| == |s|
    ensures forall i :: 0 <= i < |s| ==> r[i] == LowerForKeyword(s[i])
  {
    seq(|s|, i requires 0 <= i < |s| => LowerForKeyword(s[i]))
  }

  /** Rust's `<` on `String`: lexicographic on characters (the same order
      as on their UTF-8 bytes), a proper prefix before its extensions. */
  predicate LexLess(a: string, b: string)
    decreases |a|
  {
    if |b| == 0 then false
    else if |a| == 0 then true
    else if a[0] != b[0] then a[0] < b[0]
    else LexLess(a[1..], b[1..])
  }

  lemma {:induction false} LexLessIrreflexive(a: string)
    ensures !LexLess(a, a)
    decreases |a|
  {
    if |a| > 0 {
      LexLessIrreflexive(a[1..]);
    }
  }

  lemma {:induction false} LexLessTransitive(a: string, b: string, c: string)
    requires LexLess(a, b) && LexLess(b, c)
    ensures LexLess(a, c)
    decreases |a|
  {
    if |a| > 0 && a[0] == b[0] && b[0] == c[0] {
      LexLessTransitive(a[1..], b[1..], c[1..]);
    }
  }

  lemma {:induction false} LexLessTotal(a: string, b: string)
    requires a != b
    ensures LexLess(a, b) || LexLess(b, a)
    decreases |a|
  {
    if |a| > 0 && |b| > 0 && a[0] == b[0] {
      assert a == [a[0]] + a[1..] && b == [b[0]] + b[1..];
      LexLessTotal(a[1..], b[1..]);
    }
  }
}
