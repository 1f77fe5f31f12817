/** Values and string operations shared by the front-end and the back-end models:
    an Option type for JavaScript `null`/`undefined` and Python `None`, and the
    string built-ins the sources call (`trim`/`strip`, `indexOf`/`find`,
    `replace`, `split`/`join`, case mapping, integer formatting). */
module Common {

  datatype Option<T> = None | Some(value: T) {
    function GetOr(default: T): T {
      match this
      case Some(v) => v
      case None => default
    }
  }

  /** A titled message shown to the candidate (`showWarning(title, message)`). */
  datatype Warning = Warning(title: string, message: string)

  /** JavaScript truthiness of an optional string: present and non-empty. */
  predicate Truthy(s: Option<string>) {
    s.Some? && s.value != ""
  }

  /** `a || b` on optional strings. */
  function OrElse(s: Option<string>, default: string): (r: string)
    ensures Truthy(s) ==> r == s.value
    ensures !Truthy(s) ==> r == default
  {
    if Truthy(s) then s.value else default
  }

  // ---------------------------------------------------------------- stripping

  /** What JavaScript's `trim()` removes: the ECMAScript white space (tab, vertical tab,
      form feed, the byte-order mark and every space separator) and line terminators. */
  const JsWhitespace: set<char> := {
    '\t', '\n', '\U{000B}', '\U{000C}', '\r', ' ', '\U{00A0}', '\U{1680}',
    '\U{2000}', '\U{2001}', '\U{2002}', '\U{2003}', '\U{2004}', '\U{2005}', '\U{2006}',
    '\U{2007}', '\U{2008}', '\U{2009}', '\U{200A}', '\U{2028}', '\U{2029}', '\U{202F}',
    '\U{205F}', '\U{3000}', '\U{FEFF}'}

  /** What Python's `str.strip()` removes: the characters `str.isspace()` accepts. These
      include the separators U+001C to U+001F and U+0085, but not the byte-order mark. */
  const PyWhitespace: set<char> := {
    '\t', '\n', '\U{000B}', '\U{000C}', '\r', '\U{001C}', '\U{001D}', '\U{001E}', '\U{001F}',
    ' ', '\U{0085}', '\U{00A0}', '\U{1680}',
    '\U{2000}', '\U{2001}', '\U{2002}', '\U{2003}', '\U{2004}', '\U{2005}', '\U{2006}',
    '\U{2007}', '\U{2008}', '\U{2009}', '\U{200A}', '\U{2028}', '\U{2029}', '\U{202F}',
    '\U{205F}', '\U{3000}'}

  function DropLeading(s: string, drop: set<char>): string {
    if s != [] && s[0] in drop then DropLeading(s[1..], drop) else s
  }

  function DropTrailing(s: string, drop: set<char>): string {
    if s != [] && s[|s| - 1] in drop then DropTrailing(s[..|s| - 1], drop) else s
  }

  /** `DropLeading` removes the longest prefix of dropped characters. */
  lemma {:induction false} DropLeadingSpec(s: string, drop: set<char>)
    ensures var r := DropLeading(s, drop);
      |r| <= |s| && r == s[|s| - |r|..]
      && (r == [] || r[0] !in drop)
      && (forall i :: 0 <= i < |s| - |r| ==> s[i] in drop)
  {
    if s != [] && s[0] in drop {
      DropLeadingSpec(s[1..], drop);
    }
  }

  /** `DropTrailing` removes the longest suffix of dropped characters. */
  lemma {:induction false} DropTrailingSpec(s: string, drop: set<char>)
    ensures var r := DropTrailing(s, drop);
      |r| <= |s| && r == s[..|r|]
      && (r == [] || r[|r| - 1] !in drop)
      && (forall i :: |r| <= i < |s| ==> s[i] in drop)
  {
    if s != [] && s[|s| - 1] in drop {
      DropTrailingSpec(s[..|s| - 1], drop);
    }
  }

  /** Python `s.strip(chars)`: remove leading and trailing characters of `drop`. */
  function Strip(s: string, drop: set<char>): (r: string)
  {
    DropTrailing(DropLeading(s, drop), drop)
  }

  /** JavaScript `trim()`. */
  function Trim(s: string): string {
    Strip(s, JsWhitespace)
  }

  /** Python `str.strip()` without arguments. */
  function PyStrip(s: string): string {
    Strip(s, PyWhitespace)
  }

  /** What stripping keeps: a slice of the input that neither starts nor ends with a
      dropped character, with only dropped characters cut off on either side. */
  lemma StripSlice(s: string, drop: set<char>)
    ensures var r, a := Strip(s, drop), |s| - |DropLeading(s, drop)|;
      0 <= a <= a + |r| <= |s| && r == s[a..a + |r|]
        && (forall i :: 0 <= i < a ==> s[i] in drop)
        && (forall i :: a + |r| <= i < |s| ==> s[i] in drop)
    ensures var r := Strip(s, drop); r == [] || (r[0] !in drop && r[|r| - 1] !in drop)
  {
    var l := DropLeading(s, drop);
    var r := DropTrailing(l, drop);
    DropLeadingSpec(s, drop);
    DropTrailingSpec(l, drop);
    var a := |s| - |l|;
    assert l == s[a..];
    assert r == l[..|r|];
    forall i | a + |r| <= i < |s|
      ensures s[i] in drop
    {
      assert s[i] == l[i - a];
    }
    if r != [] {
      assert r[0] == l[0];
    }
  }

  /** Stripping is idempotent. */
  lemma {:induction false} StripIdempotent(s: string, drop: set<char>)
    ensures Strip(Strip(s, drop), drop) == Strip(s, drop)
  {
    StripSlice(s, drop);
    StripUnchanged(Strip(s, drop), drop);
  }

  /** A string that neither starts nor ends with a dropped character is left alone. */
  lemma StripUnchanged(s: string, drop: set<char>)
    requires s == [] || (s[0] !in drop && s[|s| - 1] !in drop)
    ensures Strip(s, drop) == s
  {
  }

  /** Stripping yields the empty string exactly when every character is dropped. */
  lemma {:induction false} StripEmpty(s: string, drop: set<char>)
    ensures Strip(s, drop) == [] <==> forall i :: 0 <= i < |s| ==> s[i] in drop
  {
    StripSlice(s, drop);
    var l := DropLeading(s, drop);
    DropLeadingSpec(s, drop);
    DropTrailingSpec(l, drop);
    if l != [] {
      assert s[|s| - |l|] == l[0];
    }
  }

  // ------------------------------------------------------------------- search

  predicate OccursAt(s: string, pat: string, i: nat) {
    i + |pat| <= |s| && s[i..i + |pat|] == pat
  }

  function IndexFrom(s: string, pat: string, i: nat): (r: Option<nat>)
    requires i <= |s|
    ensures r.Some? ==> i <= r.value && OccursAt(s, pat, r.value)
    ensures r.Some? ==> forall j :: i <= j < r.value ==> !OccursAt(s, pat, j)
    ensures r.None? ==> forall j :: i <= j <= |s| ==> !OccursAt(s, pat, j)
    decreases |s| - i
  {
    if OccursAt(s, pat, i) then Some(i)
    else if i == |s| then None
    else IndexFrom(s, pat, i + 1)
  }

  /** JavaScript `indexOf` / Python `find`: the first position where `pat` occurs. */
  function IndexOf(s: string, pat: string): (r: Option<nat>)
    ensures r.Some? ==> OccursAt(s, pat, r.value) && forall j :: 0 <= j < r.value ==> !OccursAt(s, pat, j)
    ensures r.None? ==> forall j :: 0 <= j <= |s| ==> !OccursAt(s, pat, j)
  {
    IndexFrom(s, pat, 0)
  }

  predicate Contains(s: string, pat: string) {
    IndexOf(s, pat).Some?
  }

  predicate StartsWith(s: string, prefix: string) {
    |prefix| <= |s| && s[..|prefix|] == prefix
  }

  predicate EndsWith(s: string, suffix: string) {
    |suffix| <= |s| && s[|s| - |suffix|..] == suffix
  }

  /** JavaScript `s.replace(pat, repl)` with a string pattern: only the first occurrence. */
  function ReplaceFirst(s: string, pat: string, repl: string): (r: string)
  {
    match IndexOf(s, pat)
    case None => s
    case Some(i) => s[..i] + repl + s[i + |pat|..]
  }

  /** A prefix occurrence is the first one, so replacing rewrites the prefix. */
  lemma ReplaceFirstAtStart(s: string, pat: string, repl: string)
    requires StartsWith(s, pat)
    ensures ReplaceFirst(s, pat, repl) == repl + s[|pat|..]
  {
    assert OccursAt(s, pat, 0);
  }

  /** Replacing a pattern that does not occur changes nothing; when it occurs, the
      text before and after the first occurrence is kept. */
  lemma ReplaceFirstFrame(s: string, pat: string, repl: string)
    ensures !Contains(s, pat) ==> ReplaceFirst(s, pat, repl) == s
    ensures Contains(s, pat) ==> var i := IndexOf(s, pat).value;
      |ReplaceFirst(s, pat, repl)| == |s| - |pat| + |repl|
      && StartsWith(ReplaceFirst(s, pat, repl), s[..i] + repl)
      && EndsWith(ReplaceFirst(s, pat, repl), s[i + |pat|..])
  {
    if Contains(s, pat) {
      var i := IndexOf(s, pat).value;
      var r := ReplaceFirst(s, pat, repl);
      assert r == (s[..i] + repl) + s[i + |pat|..];
    }
  }

  // ------------------------------------------------------------ split and join

  /** JavaScript `s.split(sep)` / Python `s.split(sep)` with a one-character separator. */
  function Split(s: string, sep: char): (r: seq<string>)
    ensures |r| >= 1
    ensures forall k :: 0 <= k < |r| ==> sep !in r[k]
  {
    if s == [] then [""]
    else
      var rest := Split(s[1..], sep);
      if s[0] == sep then [""] + rest else [[s[0]] + rest[0]] + rest[1..]
  }

  /** JavaScript `parts.join(sep)` / Python `sep.join(parts)`. */
  function Join(parts: seq<string>, sep: string): string {
    if parts == [] then ""
    else if |parts| == 1 then parts[0]
    else parts[0] + sep + Join(parts[1..], sep)
  }

  /** Splitting and joining back with the same separator gives the original text. */
  lemma {:induction false} JoinSplit(s: string, sep: char)
    ensures Join(Split(s, sep), [sep]) == s
  {
    if s != [] {
      var rest := Split(s[1..], sep);
      JoinSplit(s[1..], sep);
      if s[0] == sep {
        assert s == [sep] + s[1..];
      } else if |rest| == 1 {
        assert s == [s[0]] + s[1..];
      } else {
        assert Join(rest, [sep]) == rest[0] + [sep] + Join(rest[1..], [sep]);
        assert s == [s[0]] + s[1..];
      }
    }
  }

  /** Joining parts that do not contain the separator and splitting again gives the parts back. */
  lemma {:induction false} SplitJoin(parts: seq<string>, sep: char)
    requires |parts| >= 1
    requires forall k :: 0 <= k < |parts| ==> sep !in parts[k]
    ensures Split(Join(parts, [sep]), sep) == parts
  {
    if |parts| == 1 {
      SplitNoSep(parts[0], sep);
    } else {
      SplitJoin(parts[1..], sep);
      SplitAppend(parts[0], Join(parts[1..], [sep]), sep);
      assert Join(parts, [sep]) == parts[0] + ([sep] + Join(parts[1..], [sep]));
    }
  }

  lemma {:induction false} SplitNoSep(s: string, sep: char)
    requires sep !in s
    ensures Split(s, sep) == [s]
  {
    if s != [] {
      SplitNoSep(s[1..], sep);
      assert s == [s[0]] + s[1..];
    }
  }

  /** A separator-free piece followed by a separator opens a new field. */
  lemma {:induction false} SplitAppend(a: string, b: string, sep: char)
    requires sep !in a
    ensures Split(a + [sep] + b, sep) == [a] + Split(b, sep)
  {
    if a == [] {
      assert a + [sep] + b == [sep] + b;
      assert ([sep] + b)[1..] == b;
    } else {
      SplitAppend(a[1..], b, sep);
      assert (a + [sep] + b)[1..] == a[1..] + [sep] + b;
      assert [a[0]] + a[1..] == a;
    }
  }

  // ------------------------------------------------------------ case mapping

  function LowerChar(c: char): char {
    if 'A' <= c <= 'Z' then (c as int + 32) as char else c
  }

  function UpperChar(c: char): char {
    if 'a' <= c <= 'z' then (c as int - 32) as char else c
  }

  /** `toLowerCase()` / `lower()` on the ASCII letters. */
  function Lower(s: string): (r: string)
    ensures |r| == |s| && forall i :: 0 <= i < |s| ==> r[i] == LowerChar(s[i])
  {
    seq(|s|, i requires 0 <= i < |s| => LowerChar(s[i]))
  }

  /** `toUpperCase()` / `upper()` on the ASCII letters. */
  function Upper(s: string): (r: string)
    ensures |r| == |s| && forall i :: 0 <= i < |s| ==> r[i] == UpperChar(s[i])
  {
    seq(|s|, i requires 0 <= i < |s| => UpperChar(s[i]))
  }

  /** Python `str.isalnum()` restricted to ASCII. */
  predicate IsAlnum(c: char) {
    ('0' <= c <= '9') || ('a' <= c <= 'z') || ('A' <= c <= 'Z')
  }

  // --------------------------------------------------------- integer printing

  function DigitChar(d: nat): char
    requires d < 10
  {
    ('0' as int + d) as char
  }

  predicate IsDigit(c: char) {
    '0' <= c <= '9'
  }

  /** Decimal digits of a natural number, without leading zeros. */
  function NatToString(n: nat): (r: string)
    ensures |r| >= 1 && forall i :: 0 <= i < |r| ==> IsDigit(r[i])
    ensures n >= 10 ==> r[0] != '0'
    ensures n < 10 <==> |r| == 1
  {
    if n < 10 then [DigitChar(n)] else NatToString(n / 10) + [DigitChar(n % 10)]
  }

  /** JavaScript `String(i)` / Python `str(i)` for integers. */
  function IntToString(i: int): string {
    if i < 0 then "-" + NatToString(-i) else NatToString(i)
  }

  /** Reads a non-empty string of decimal digits. */
  function ParseNat(s: string): (r: Option<nat>)
    ensures r.Some? <==> s != [] && forall i :: 0 <= i < |s| ==> IsDigit(s[i])
  {
    if s == [] then None
    else if !IsDigit(s[|s| - 1]) then None
    else if |s| == 1 then Some(s[0] as int - '0' as int)
    else match ParseNat(s[..|s| - 1])
      case None => None
      case Some(p) => Some(p * 10 + (s[|s| - 1] as int - '0' as int))
  }

  /** Printing and reading back a natural number is the identity. */
  lemma {:induction false} ParseNatToString(n: nat)
    ensures ParseNat(NatToString(n)) == Some(n)
  {
    if n >= 10 {
      ParseNatToString(n / 10);
      var s := NatToString(n);
      assert s[..|s| - 1] == NatToString(n / 10);
    }
  }
}
