/**
 * String helpers with the semantics of the Python `str` methods the source relies on:
 * `strip`, `lower`/`upper` (ASCII letters only), `in`, `startswith`/`endswith`,
 * `replace`, `split` on a single character, `join` and `int` on decimal text.
 */
module Text {
  import opened Wrappers

  /** Python's `str.isspace()` on one character (the whitespace set `strip()` and `\s` use). */
  predicate IsSpace(c: char)
  {
    c in {'\t', '\n', '\U{000B}', '\U{000C}', '\r', '\U{001C}', '\U{001D}', '\U{001E}', '\U{001F}', ' ',
          '\U{0085}', '\U{00A0}', '\U{1680}', '\U{2028}', '\U{2029}', '\U{202F}', '\U{205F}', '\U{3000}'}
    || ('\U{2000}' <= c <= '\U{200A}')
  }

  predicate IsDigit(c: char)
  {
    '0' <= c <= '9'
  }

  predicate IsAsciiAlnum(c: char)
  {
    IsDigit(c) || 'a' <= c <= 'z' || 'A' <= c <= 'Z'
  }

  predicate AllDigits(s: string)
  {
    forall i :: 0 <= i < |s| ==> IsDigit(s[i])
  }

  function LowerChar(c: char): char
  {
    if 'A' <= c <= 'Z' then (c as int - 'A' as int + 'a' as int) as char else c
  }

  function UpperChar(c: char): char
  {
    if 'a' <= c <= 'z' then (c as int - 'a' as int + 'A' as int) as char else c
  }

  function Lower(s: string): string
  {
    seq(|s|, i requires 0 <= i < |s| => LowerChar(s[i]))
  }

  function Upper(s: string): string
  {
    seq(|s|, i requires 0 <= i < |s| => UpperChar(s[i]))
  }

  lemma UpperIdempotent(s: string)
    ensures Upper(Upper(s)) == Upper(s)
  {
  }

  /** `s.lstrip()`: the longest suffix of `s` that does not start with whitespace. */
  function LStrip(s: string): (r: string)
    ensures |r| <= |s| && r == s[|s| - |r|..]
    ensures forall i :: 0 <= i < |s| - |r| ==> IsSpace(s[i])
    ensures r != [] ==> !IsSpace(r[0])
  {
    if s != [] && IsSpace(s[0]) then LStrip(s[1..]) else s
  }

  /** `s.rstrip()`: the longest prefix of `s` that does not end with whitespace. */
  function RStrip(s: string): (r: string)
    ensures |r| <= |s| && r == s[..|r|]
    ensures forall i :: |r| <= i < |s| ==> IsSpace(s[i])
    ensures r != [] ==> !IsSpace(r[|r| - 1])
  {
    if s != [] && IsSpace(s[|s| - 1]) then RStrip(s[..|s| - 1]) else s
  }

  /** `s.strip()`. */
  function Strip(s: string): (r: string)
    ensures |r| <= |s|
    ensures r != [] ==> !IsSpace(r[0]) && !IsSpace(r[|r| - 1])
    ensures (s == [] || (!IsSpace(s[0]) && !IsSpace(s[|s| - 1]))) ==> r == s
  {
    var l := LStrip(s);
    var r := RStrip(l);
    assert r != [] ==> r[0] == l[0];
    r
  }

  /** `s.strip()` is empty exactly when every character of `s` is whitespace. */
  lemma StripBlank(s: string)
    ensures Strip(s) == [] <==> forall i :: 0 <= i < |s| ==> IsSpace(s[i])
  {
    var l := LStrip(s);
    assert l == s[|s| - |l|..];
    if l != [] {
      assert RStrip(l) != [] && !IsSpace(s[|s| - |l|]);
    }
  }

  lemma StripIdempotent(s: string)
    ensures Strip(Strip(s)) == Strip(s)
  {
  }

  /** Stripping keeps only characters of the original: a character absent from `s` is absent from `s.strip()`. */
  lemma StripWithin(s: string, c: char)
    requires c !in s
    ensures c !in Strip(s)
  {
    var l := LStrip(s);
    assert l == s[|s| - |l|..];
    assert RStrip(l) == l[..|RStrip(l)|];
  }

  /** Python's `p in s` for strings. */
  predicate Contains(s: string, p: string)
  {
    p <= s || (s != [] && Contains(s[1..], p))
  }

  predicate StartsWith(s: string, p: string)
  {
    p <= s
  }

  predicate EndsWith(s: string, p: string)
  {
    |p| <= |s| && s[|s| - |p|..] == p
  }

  /**
   * `s.replace(pat, rep)`: every non-overlapping occurrence of `pat`, scanning left to right,
   * is replaced by `rep`.
   */
  function Replace(s: string, pat: string, rep: string): (r: string)
    requires pat != []
    ensures !Contains(s, pat) ==> r == s
    decreases |s|
  {
    if |s| < |pat| then s
    else if pat <= s then rep + Replace(s[|pat|..], pat, rep)
    else [s[0]] + Replace(s[1..], pat, rep)
  }

  /** `sep.join(parts)`. */
  function Join(parts: seq<string>, sep: string): string
  {
    if |parts| == 0 then ""
    else if |parts| == 1 then parts[0]
    else parts[0] + sep + Join(parts[1..], sep)
  }

  function IndexOfChar(s: string, c: char): (i: nat)
    requires c in s
    ensures i < |s| && s[i] == c && c !in s[..i]
  {
    if s[0] == c then 0 else 1 + IndexOfChar(s[1..], c)
  }

  /** `s.split(sep)` for a one-character separator: never empty, and joining it back gives `s`. */
  function Split(s: string, sep: char): (r: seq<string>)
    ensures |r| >= 1
    ensures forall k :: 0 <= k < |r| ==> sep !in r[k]
    ensures Join(r, [sep]) == s
    decreases |s|
  {
    if sep !in s then [s]
    else
      var i := IndexOfChar(s, sep);
      var rest := Split(s[i + 1..], sep);
      assert s == s[..i] + [sep] + s[i + 1..];
      [s[..i]] + rest
  }

  /** `[x.strip() for x in parts]`. */
  function StripAll(parts: seq<string>): (r: seq<string>)
    ensures |r| == |parts|
    ensures forall k :: 0 <= k < |r| ==> r[k] == Strip(parts[k])
  {
    if parts == [] then [] else [Strip(parts[0])] + StripAll(parts[1..])
  }

  lemma StripAllAppend(a: seq<string>, b: seq<string>)
    ensures StripAll(a + b) == StripAll(a) + StripAll(b)
  {
  }

  /** A character absent from every part is absent from every stripped part. */
  lemma {:induction false} StripAllWithin(parts: seq<string>, c: char)
    requires forall j :: 0 <= j < |parts| ==> c !in parts[j]
    ensures forall x :: x in StripAll(parts) ==> c !in x
  {
    if parts != [] {
      StripWithin(parts[0], c);
      StripAllWithin(parts[1..], c);
    }
  }

  /** A non-empty string that `strip()` leaves as it is. */
  predicate IsStrippedWord(t: string)
  {
    t != [] && !IsSpace(t[0]) && !IsSpace(t[|t| - 1])
  }

  /** `filter(None, parts)` on strings: the non-empty ones, in their order. */
  function NonEmpty(parts: seq<string>): (r: seq<string>)
    ensures |r| <= |parts|
    ensures forall x :: x in r <==> x in parts && x != ""
    ensures (forall k :: 0 <= k < |parts| ==> parts[k] != "") ==> r == parts
  {
    if parts == [] then []
    else
      var rest := NonEmpty(parts[1..]);
      assert forall x :: x in parts <==> x == parts[0] || x in parts[1..];
      (if parts[0] != "" then [parts[0]] else []) + rest
  }

  /**
   * Filtering distributes over concatenation; with the one-element case below this fixes
   * the result completely: every non-empty part is kept, once, in its place.
   */
  lemma {:induction false} NonEmptyAppend(a: seq<string>, b: seq<string>)
    ensures NonEmpty(a + b) == NonEmpty(a) + NonEmpty(b)
    decreases |a|
  {
    if a != [] {
      assert (a + b)[0] == a[0] && (a + b)[1..] == a[1..] + b;
      NonEmptyAppend(a[1..], b);
    } else {
      assert a + b == b;
    }
  }

  lemma NonEmptySingle(x: string)
    ensures NonEmpty([x]) == (if x == "" then [] else [x])
  {
    assert [x][1..] == [];
  }

  /** `[x.strip() for x in parts if x.strip()]`. */
  function StrippedNonEmpty(parts: seq<string>): (r: seq<string>)
    ensures |r| <= |parts|
    ensures forall k :: 0 <= k < |r| ==> IsStrippedWord(r[k])
    ensures forall x :: x in r <==> x in StripAll(parts) && x != ""
  {
    var all := StripAll(parts);
    var r := NonEmpty(all);
    forall k | 0 <= k < |r|
      ensures IsStrippedWord(r[k])
    {
      assert r[k] in all;
      var j :| 0 <= j < |all| && all[j] == r[k];
      assert r[k] == Strip(parts[j]);
    }
    r
  }

  /** `s.index(c)` is the position of a `c` with none before it. */
  lemma IndexOfCharIs(s: string, c: char, i: nat)
    requires i < |s| && s[i] == c && c !in s[..i]
    ensures IndexOfChar(s, c) == i
  {
  }

  /** Splitting cuts at the first separator and splits the rest. */
  lemma SplitAtFirst(s: string, sep: char, i: nat)
    requires i < |s| && s[i] == sep && sep !in s[..i]
    ensures Split(s, sep) == [s[..i]] + Split(s[i + 1..], sep)
  {
    IndexOfCharIs(s, sep, i);
  }

  /** Splitting at a separator between two texts splits each of them. */
  lemma {:induction false} SplitAppend(a: string, b: string, sep: char)
    ensures Split(a + [sep] + b, sep) == Split(a, sep) + Split(b, sep)
    decreases |a|
  {
    if sep !in a {
      SplitCons(a, b, sep);
    } else {
      var j := IndexOfChar(a, sep);
      var x, rest := a[..j], a[j + 1..];
      assert a == x + [sep] + rest;
      SplitAppend(rest, b, sep);
      SplitAppendStep(x, rest, b, sep);
    }
  }

  lemma SplitAppendStep(x: string, rest: string, b: string, sep: char)
    requires sep !in x
    requires Split(rest + [sep] + b, sep) == Split(rest, sep) + Split(b, sep)
    ensures Split(x + [sep] + rest + [sep] + b, sep) == Split(x + [sep] + rest, sep) + Split(b, sep)
  {
    SplitConsTwice(x, rest, b, sep);
    var p, q := Split(rest, sep), Split(b, sep);
    ConsAssoc(x, p, q);
  }

  lemma ConsAssoc<T>(x: T, p: seq<T>, q: seq<T>)
    ensures [x] + (p + q) == ([x] + p) + q
  {
  }

  /** Text without the separator, then the separator, splits into that text and the rest's pieces. */
  lemma SplitCons(x: string, y: string, sep: char)
    requires sep !in x
    ensures Split(x + [sep] + y, sep) == [x] + Split(y, sep)
  {
    var s := x + [sep] + y;
    assert s[..|x|] == x && s[|x| + 1..] == y;
    SplitAtFirst(s, sep, |x|);
  }

  lemma SplitConsTwice(x: string, rest: string, b: string, sep: char)
    requires sep !in x
    ensures Split(x + [sep] + rest + [sep] + b, sep) == [x] + Split(rest + [sep] + b, sep)
    ensures Split(x + [sep] + rest, sep) == [x] + Split(rest, sep)
  {
    assert x + [sep] + rest + [sep] + b == x + [sep] + (rest + [sep] + b);
    SplitCons(x, rest + [sep] + b, sep);
    SplitCons(x, rest, sep);
  }

  /** `[x.strip() for x in text.split(sep) if x.strip()]`: the trimmed, non-blank pieces between separators. */
  function SplitItems(text: string, sep: char): (r: seq<string>)
    ensures forall x :: x in r <==> x in StripAll(Split(text, sep)) && x != ""
    ensures forall k :: 0 <= k < |r| ==> IsStrippedWord(r[k]) && sep !in r[k]
  {
    var parts := Split(text, sep);
    StripAllWithin(parts, sep);
    StrippedNonEmpty(parts)
  }

  /** The items of two texts joined by the separator are the items of the first, then those of the second. */
  lemma SplitItemsAppend(a: string, b: string, sep: char)
    ensures SplitItems(a + [sep] + b, sep) == SplitItems(a, sep) + SplitItems(b, sep)
  {
    SplitAppend(a, b, sep);
    StripAllAppend(Split(a, sep), Split(b, sep));
    NonEmptyAppend(StripAll(Split(a, sep)), StripAll(Split(b, sep)));
  }

  /** Text without the separator is one item, its stripped self, unless it is blank. */
  lemma SplitItemsSingle(t: string, sep: char)
    requires sep !in t
    ensures SplitItems(t, sep) == (if Strip(t) == "" then [] else [Strip(t)])
  {
    assert Split(t, sep) == [t];
    assert StripAll([t]) == [Strip(t)];
    NonEmptySingle(Strip(t));
  }

  /** The value of a non-empty run of ASCII digits. */
  function DigitsValue(s: string): nat
    requires AllDigits(s)
  {
    if s == [] then 0 else DigitsValue(s[..|s| - 1]) * 10 + (s[|s| - 1] as int - '0' as int)
  }

  /** Python's `int(s)` on decimal text: surrounding whitespace, an optional sign, then digits. */
  function ParseInt(s: string): (r: Option<int>)
    ensures AllDigits(s) && s != [] ==> r == Some(DigitsValue(s))
  {
    var t := Strip(s);
    assert AllDigits(s) && s != [] ==> t == s by {
      if AllDigits(s) && s != [] {
        assert IsDigit(s[0]) && IsDigit(s[|s| - 1]);
      }
    }
    if t != [] && (t[0] == '+' || t[0] == '-') then
      if |t| > 1 && AllDigits(t[1..]) then
        var magnitude: int := DigitsValue(t[1..]);
        Some(if t[0] == '-' then -magnitude else magnitude)
      else None
    else if t != [] && AllDigits(t) then Some(DigitsValue(t))
    else None
  }

  /** `q` occurs at position `i` of `s`, so `s` contains it. */
  lemma {:induction false} ContainsAt(s: string, q: string, i: nat)
    requires i <= |s| && q <= s[i..]
    ensures Contains(s, q)
    decreases i
  {
    if i > 0 {
      assert s[1..][i - 1..] == s[i..];
      ContainsAt(s[1..], q, i - 1);
    }
  }

  /** `s.find(p)`: the first position at which `p` occurs, `None` where `find` gives -1. */
  function Find(s: string, p: string): (r: Option<nat>)
    ensures r.Some? ==> r.value <= |s| && p <= s[r.value..]
    ensures r.Some? ==> forall j :: 0 <= j < r.value ==> !(p <= s[j..])
    ensures r.None? <==> !Contains(s, p)
    decreases |s|
  {
    if p <= s then Some(0)
    else if s == [] then None
    else match Find(s[1..], p)
      case None => None
      case Some(i) =>
        assert forall j :: 1 <= j <= i + 1 ==> s[j..] == s[1..][j - 1..];
        Some(i + 1)
  }

  /** `s.rfind(p)`: the last position at which `p` occurs. */
  function RFind(s: string, p: string): (r: Option<nat>)
    ensures r.Some? ==> r.value + |p| <= |s| && s[r.value..r.value + |p|] == p
    ensures |s| >= |p| && s[|s| - |p|..] == p ==> r == Some(|s| - |p|)
    decreases |s|
  {
    if |s| < |p| then None
    else if s[|s| - |p|..] == p then Some(|s| - |p|)
    else RFind(s[..|s| - 1], p)
  }

  /** `s.split(p, 1)[1]`: the text after the first occurrence of `p`. */
  function AfterFirst(s: string, p: string): (r: string)
    requires Contains(s, p)
    ensures |r| + |p| <= |s| && s == s[..|s| - |r| - |p|] + p + r
    ensures forall j :: 0 <= j < |s| - |r| - |p| ==> !(p <= s[j..])
  {
    var i := Find(s, p).value;
    assert s == s[..i] + p + s[i + |p|..];
    s[i + |p|..]
  }

  /** `s.rsplit(p, 1)[0]`: the text before the last occurrence of `p`, or all of `s` without one. */
  function BeforeLast(s: string, p: string): (r: string)
    ensures r <= s
    ensures RFind(s, p).None? ==> r == s
  {
    match RFind(s, p)
    case None => s
    case Some(j) => s[..j]
  }

  /** Python's `s[i:j]` for `0 <= i <= j`: indices beyond the end are clamped. */
  function PySlice(s: string, i: nat, j: nat): (r: string)
    requires i <= j
    ensures |r| <= j - i && |r| <= |s|
    ensures i <= j <= |s| ==> r == s[i..j]
  {
    if i >= |s| then "" else s[i..if j <= |s| then j else |s|]
  }

  /** Python truthiness of an optional string: present and non-empty. */
  predicate Truthy(o: Option<string>)
  {
    o.Some? && o.value != ""
  }

  /** Python's `o or default` for an optional string. */
  function OrElse(o: Option<string>, default: string): (r: string)
    ensures Truthy(o) ==> r == o.value
    ensures !Truthy(o) ==> r == default
  {
    if Truthy(o) then o.value else default
  }
}
