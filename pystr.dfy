/**
 * The pieces of Python's built-in string, path and text-file behaviour that
 * the prompt generator relies on: `str.strip`, `str.lower`, `str.join`,
 * `str.split`, `str(n)` for a non-negative integer, `os.path.splitext` and
 * the line-by-line iteration of a file opened in text mode.
 */
module PyStr {

  /** Python's `str.isspace` for one character: the characters `str.strip()` removes. */
  predicate IsSpace(c: char) {
    || ('\t' <= c <= '\r')
    || ('\U{1C}' <= c <= '\U{1F}')
    || c == ' ' || c == '\U{85}' || c == '\U{A0}' || c == '\U{1680}'
    || ('\U{2000}' <= c <= '\U{200A}')
    || c == '\U{2028}' || c == '\U{2029}' || c == '\U{202F}' || c == '\U{205F}' || c == '\U{3000}'
  }

  /** The string without its leading whitespace. */
  function TrimLeft(s: string): (r: string)
    ensures |r| <= |s| && r == s[|s| - |r|..]
    ensures forall i :: 0 <= i < |s| - |r| ==> IsSpace(s[i])
    ensures r == [] || !IsSpace(r[0])
  {
    if s != [] && IsSpace(s[0]) then
      var r := TrimLeft(s[1..]);
      assert s[1..][|s| - 1 - |r|..] == s[|s| - |r|..];
      assert forall i :: 1 <= i < |s| - |r| ==> s[i] == s[1..][i - 1];
      r
    else s
  }

  /** The string without its trailing whitespace. */
  function TrimRight(s: string): (r: string)
    ensures |r| <= |s| && r == s[..|r|]
    ensures forall i :: |r| <= i < |s| ==> IsSpace(s[i])
    ensures r == [] || !IsSpace(r[|r| - 1])
  {
    if s != [] && IsSpace(s[|s| - 1]) then
      var r := TrimRight(s[..|s| - 1]);
      assert s[..|s| - 1][..|r|] == s[..|r|];
      r
    else s
  }

  /** Every character of `s` outside `s[i..j]` is whitespace. */
  predicate SpaceOutside(s: string, i: nat, j: nat) {
    forall k :: 0 <= k < |s| && !(i <= k < j) ==> IsSpace(s[k])
  }

  /** `s.strip()`: `s` without its leading and trailing whitespace. */
  function Strip(s: string): (r: string)
    ensures |r| <= |s|
    ensures r == [] || (!IsSpace(r[0]) && !IsSpace(r[|r| - 1]))
  {
    TrimRight(TrimLeft(s))
  }

  /**
   * Whitespace before `s[i..]` and whitespace after the first `m` characters
   * of `s[i..]` together leave only `s[i..i + m]` unaccounted for.
   */
  lemma SpaceOutsideSlice(s: string, i: nat, m: nat)
    requires i + m <= |s|
    requires forall k :: 0 <= k < i ==> IsSpace(s[k])
    requires forall k :: m <= k < |s| - i ==> IsSpace(s[i..][k])
    ensures SpaceOutside(s, i, i + m) && s[i..][..m] == s[i..i + m]
  {
    forall k | i + m <= k < |s| ensures IsSpace(s[k]) {
      assert s[k] == s[i..][k - i];
    }
  }

  /** The bounds of what `strip` keeps: `TrimLeft` fixes the start, `TrimRight` the end. */
  lemma StripBounds(s: string) returns (i: nat, j: nat)
    ensures i <= j <= |s| && Strip(s) == s[i..j] && SpaceOutside(s, i, j)
  {
    var l := TrimLeft(s);
    i := |s| - |l|;
    var r := TrimRight(l);
    j := i + |r|;
    assert l == s[i..] && r == l[..|r|];
    SpaceOutsideSlice(s, i, |r|);
  }

  /**
   * What `strip` removes is whitespace only: the result is the part of `s`
   * between a whitespace-only prefix and a whitespace-only suffix.
   */
  lemma StripIsMiddle(s: string)
    ensures exists i, j :: 0 <= i <= j <= |s| && Strip(s) == s[i..j] && SpaceOutside(s, i, j)
  {
    var i, j := StripBounds(s);
  }

  /** Stripping twice is stripping once. */
  lemma StripIdempotent(s: string)
    ensures Strip(Strip(s)) == Strip(s)
  {
    var r := Strip(s);
    if r != [] {
      assert TrimLeft(r) == r;
      assert TrimRight(r) == r;
    }
  }

  /** `c.lower()` for ASCII characters; every other character is left as it is. */
  function LowerChar(c: char): char {
    if 'A' <= c <= 'Z' then (c as int + ('a' as int - 'A' as int)) as char else c
  }

  /** `s.lower()`, character by character (ASCII letters only). */
  function Lower(s: string): (r: string)
    ensures |r| == |s|
    ensures forall i :: 0 <= i < |s| ==> r[i] == LowerChar(s[i])
    ensures forall i :: 0 <= i < |r| ==> !('A' <= r[i] <= 'Z')
  {
    seq(|s|, i requires 0 <= i < |s| => LowerChar(s[i]))
  }

  /** Lower-casing a lower-cased string changes nothing. */
  lemma LowerIdempotent(s: string)
    ensures Lower(Lower(s)) == Lower(s)
  {
    var l := Lower(s);
    assert forall i :: 0 <= i < |l| ==> LowerChar(l[i]) == l[i];
  }

  /** `sep.join(xs)`. */
  function Join(xs: seq<string>, sep: string): (r: string)
    ensures (forall i :: 0 <= i < |xs| ==> xs[i] != []) ==> (r == [] <==> xs == [])
  {
    if |xs| == 0 then []
    else if |xs| == 1 then xs[0]
    else xs[0] + sep + Join(xs[1..], sep)
  }

  /** `s.split(sep)` for a non-empty separator: the pieces between non-overlapping occurrences of `sep`, left to right. */
  function Split(s: string, sep: string): (r: seq<string>)
    requires sep != []
    ensures r != []
    decreases |s|
  {
    if |sep| <= |s| && s[..|sep|] == sep then [[]] + Split(s[|sep|..], sep)
    else if s == [] then [[]]
    else
      var t := Split(s[1..], sep);
      [[s[0]] + t[0]] + t[1..]
  }

  /** A string in which the separator's first character never occurs splits into itself. */
  lemma {:induction false} SplitWithoutSeparator(a: string, sep: string)
    requires sep != [] && sep[0] !in a
    ensures Split(a, sep) == [a]
    decreases |a|
  {
    if a != [] {
      assert |sep| <= |a| ==> a[..|sep|][0] != sep[0];
      SplitWithoutSeparator(a[1..], sep);
      assert [a[0]] + a[1..] == a;
    }
  }

  /** Splitting `a + sep + t` where `a` cannot hold the start of a separator peels `a` off first. */
  lemma {:induction false} SplitAfterPiece(a: string, sep: string, t: string)
    requires sep != [] && sep[0] !in a
    ensures Split(a + sep + t, sep) == [a] + Split(t, sep)
    decreases |a|
  {
    var s := a + sep + t;
    if a == [] {
      assert s[..|sep|] == sep && s[|sep|..] == t;
    } else {
      assert s[0] == a[0] != sep[0];
      assert s[1..] == a[1..] + sep + t;
      SplitAfterPiece(a[1..], sep, t);
      assert [a[0]] + a[1..] == a;
    }
  }

  /** `split` undoes `join` when no piece holds the separator's first character. */
  lemma {:induction false} SplitJoin(xs: seq<string>, sep: string)
    requires sep != [] && xs != []
    requires forall i :: 0 <= i < |xs| ==> sep[0] !in xs[i]
    ensures Split(Join(xs, sep), sep) == xs
  {
    if |xs| == 1 {
      SplitWithoutSeparator(xs[0], sep);
    } else {
      SplitJoin(xs[1..], sep);
      SplitAfterPiece(xs[0], sep, Join(xs[1..], sep));
    }
  }

  /** The decimal digit character for `d`. */
  function DigitChar(d: nat): (c: char)
    requires d < 10
    ensures '0' <= c <= '9'
  {
    ('0' as int + d) as char
  }

  function DigitValue(c: char): nat
    requires '0' <= c <= '9'
  {
    c as int - '0' as int
  }

  predicate IsDigits(s: string) {
    forall i :: 0 <= i < |s| ==> '0' <= s[i] <= '9'
  }

  /** `str(n)` for `n >= 0`: decimal digits, no leading zero except for "0" itself. */
  function NatToString(n: nat): (r: string)
    ensures r != [] && IsDigits(r)
    ensures |r| > 1 ==> r[0] != '0'
  {
    if n < 10 then [DigitChar(n)] else NatToString(n / 10) + [DigitChar(n % 10)]
  }

  /** `int(s)` for a string of decimal digits. */
  function ParseNat(s: string): nat
    requires IsDigits(s)
  {
    if s == [] then 0 else ParseNat(s[..|s| - 1]) * 10 + DigitValue(s[|s| - 1])
  }

  /** Reading back the decimal digits of `n` gives `n`. */
  lemma {:induction false} ParseNatToString(n: nat)
    ensures ParseNat(NatToString(n)) == n
  {
    var s := NatToString(n);
    if n >= 10 {
      ParseNatToString(n / 10);
      assert s[..|s| - 1] == NatToString(n / 10);
    }
  }

  /** Distinct numbers have distinct decimal strings. */
  lemma NatToStringInjective(a: nat, b: nat)
    requires NatToString(a) == NatToString(b)
    ensures a == b
  {
    ParseNatToString(a);
    ParseNatToString(b);
  }

  /** `s.rfind([c])`: the index of the last occurrence of `c`, or -1. */
  function RFind(s: string, c: char): (k: int)
    ensures -1 <= k < |s|
    ensures 0 <= k ==> s[k] == c
    ensures forall i :: k < i < |s| ==> s[i] != c
  {
    if s == [] then -1
    else if s[|s| - 1] == c then |s| - 1
    else RFind(s[..|s| - 1], c)
  }

  /** Whether `s[lo..hi]` holds a character other than '.'. */
  predicate HasNonDot(s: string, lo: nat, hi: nat)
    requires lo <= hi <= |s|
  {
    exists k :: lo <= k < hi && s[k] != '.'
  }

  /**
   * `os.path.splitext(p)` on POSIX: the extension runs from the last '.' of
   * the last path component to the end, unless everything before that dot in
   * the component is dots (so ".profile" and "..txt" have no extension).
   */
  function SplitExt(p: string): (r: (string, string))
    ensures r.0 + r.1 == p
    ensures r.1 == [] || (r.1[0] == '.' && '.' !in r.1[1..] && '/' !in r.1)
    ensures r.1 != [] ==> exists k :: RFind(p, '/') < k < |r.0| && r.0[k] != '.'
    ensures (exists k :: RFind(p, '/') < k < RFind(p, '.') && p[k] != '.') ==> r.1 == p[RFind(p, '.')..]
  {
    var sepIndex := RFind(p, '/');
    var dotIndex := RFind(p, '.');
    if dotIndex > sepIndex && HasNonDot(p, sepIndex + 1, dotIndex) then
      assert p[..dotIndex] + p[dotIndex..] == p;
      (p[..dotIndex], p[dotIndex..])
    else
      (p, [])
  }

  /** Text-mode reading with universal newlines: "\r\n" and a lone "\r" both become "\n". */
  function UniversalNewlines(t: string): (r: string)
    ensures '\r' !in r
    ensures |r| <= |t|
    ensures '\n' in t ==> '\n' in r
    ensures '\r' !in t ==> r == t
  {
    if t == [] then []
    else if t[0] == '\r' then
      "\n" + UniversalNewlines(if |t| > 1 && t[1] == '\n' then t[2..] else t[1..])
    else
      assert t[0] == '\n' || ('\n' in t ==> '\n' in t[1..]);
      [t[0]] + UniversalNewlines(t[1..])
  }

  /** Text without '\r' passes through the translation unchanged, whatever follows it. */
  lemma {:induction false} UniversalNewlinesPrefix(a: string, t: string)
    requires '\r' !in a
    ensures UniversalNewlines(a + t) == a + UniversalNewlines(t)
  {
    if a != [] {
      var s := a + t;
      assert s[0] == a[0] && s[1..] == a[1..] + t;
      UniversalNewlinesPrefix(a[1..], t);
      assert a == [a[0]] + a[1..];
    } else {
      assert a + t == t;
    }
  }

  /** The translation of text that starts with `"\r\n"`. */
  lemma UniversalNewlinesStartCRLF(b: string)
    ensures UniversalNewlines("\r\n" + b) == "\n" + UniversalNewlines(b)
  {
    var t := "\r\n" + b;
    assert t[0] == '\r' && |t| > 1 && t[1] == '\n' && t[2..] == b;
  }

  /** The translation of text that starts with a '\r' not followed by '\n'. */
  lemma UniversalNewlinesStartCR(b: string)
    requires b == [] || b[0] != '\n'
    ensures UniversalNewlines("\r" + b) == "\n" + UniversalNewlines(b)
  {
    var t := "\r" + b;
    assert t[0] == '\r' && !(|t| > 1 && t[1] == '\n') && t[1..] == b;
  }

  /** A Windows line ending `"\r\n"` is read as one '\n'. */
  lemma UniversalNewlinesCRLF(a: string, b: string)
    requires '\r' !in a
    ensures UniversalNewlines(a + "\r\n" + b) == a + "\n" + UniversalNewlines(b)
  {
    UniversalNewlinesPrefix(a, "\r\n" + b);
    UniversalNewlinesStartCRLF(b);
    assert a + "\r\n" + b == a + ("\r\n" + b);
    assert a + ("\n" + UniversalNewlines(b)) == a + "\n" + UniversalNewlines(b);
  }

  /** An old Mac line ending, a '\r' not followed by '\n', is read as '\n'. */
  lemma UniversalNewlinesCR(a: string, b: string)
    requires '\r' !in a
    requires b == [] || b[0] != '\n'
    ensures UniversalNewlines(a + "\r" + b) == a + "\n" + UniversalNewlines(b)
  {
    UniversalNewlinesPrefix(a, "\r" + b);
    UniversalNewlinesStartCR(b);
    assert a + "\r" + b == a + ("\r" + b);
    assert a + ("\n" + UniversalNewlines(b)) == a + "\n" + UniversalNewlines(b);
  }

  /** The length of the first line of `t`, its '\n' included when there is one. */
  function LineEnd(t: string): (k: nat)
    requires t != []
    ensures 0 < k <= |t|
    ensures '\n' !in t[..k - 1]
    ensures k < |t| ==> t[k - 1] == '\n'
  {
    if t[0] == '\n' || |t| == 1 then 1
    else
      var k := 1 + LineEnd(t[1..]);
      assert t[1..][..k - 2] == t[1..k - 1];
      k
  }

  /** `"".join(ss)`. */
  function Concat(ss: seq<string>): string {
    if ss == [] then [] else ss[0] + Concat(ss[1..])
  }

  /**
   * The lines `for line in f` yields for a file whose decoded text is `t`:
   * each line keeps its '\n', and only the last may lack one.
   */
  function SplitLines(t: string): (r: seq<string>)
    ensures |r| <= |t|
    ensures forall i :: 0 <= i < |r| ==> r[i] != [] && '\n' !in r[i][..|r[i]| - 1]
    ensures forall i :: 0 <= i < |r| - 1 ==> r[i][|r[i]| - 1] == '\n'
    decreases |t|
  {
    if t == [] then []
    else
      var k := LineEnd(t);
      [t[..k]] + SplitLines(t[k..])
  }

  /** The lines put back together are the text. */
  lemma {:induction false} ConcatSplitLines(t: string)
    ensures Concat(SplitLines(t)) == t
    decreases |t|
  {
    if t != [] {
      var k := LineEnd(t);
      var r := SplitLines(t);
      ConcatSplitLines(t[k..]);
      assert r[1..] == SplitLines(t[k..]);
      assert t[..k] + t[k..] == t;
    }
  }
}
