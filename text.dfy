/** The parts of Rust's string and number-parsing library that the palette code relies on:
    `str::trim`, `str::len` (a UTF-8 byte count), ASCII lower-casing, `str::split`,
    `u8::from_str_radix` / `u32::from_str`, decimal formatting and the ordering of `String`. */
module Text {
  import opened Wrappers

  // ---------------------------------------------------------------- whitespace and trim

  /** `char::is_whitespace`: the characters with the Unicode White_Space property, the ASCII
      ones (tab to carriage return, and space) told apart from the rest first. */
  predicate IsWhitespace(c: char)
  {
    if c as int < 0x85 then '\t' <= c <= '\r' || c == ' '
    else IsWideWhitespace(c)
  }

  /** The White_Space characters from U+0085 on. */
  predicate IsWideWhitespace(c: char)
  {
    || c == '\U{0085}' || c == '\U{00A0}' || c == '\U{1680}'
    || ('\U{2000}' <= c <= '\U{200A}') || c == '\U{2028}' || c == '\U{2029}' || c == '\U{202F}'
    || c == '\U{205F}' || c == '\U{3000}'
  }

  predicate AllWhitespace(s: string)
  {
    forall i | 0 <= i < |s| :: IsWhitespace(s[i])
  }

  /** A string that `str::trim` leaves as it is. */
  predicate HasNoOuterWhitespace(s: string)
  {
    s == [] || (!IsWhitespace(s[0]) && !IsWhitespace(s[|s| - 1]))
  }

  /** `str::trim_start`. */
  function TrimStart(s: string): string
  {
    if |s| > 0 && IsWhitespace(s[0]) then TrimStart(s[1..]) else s
  }

  /** `str::trim_end`. */
  function TrimEnd(s: string): string
  {
    if |s| > 0 && IsWhitespace(s[|s| - 1]) then TrimEnd(s[..|s| - 1]) else s
  }

  /** `str::trim`: drops leading and trailing whitespace. */
  function Trim(s: string): string
  {
    TrimEnd(TrimStart(s))
  }

  /** `trim_start` keeps a suffix, drops only whitespace, and stops at a non-blank. */
  lemma {:induction false} TrimStartSpec(s: string)
    ensures |TrimStart(s)| <= |s| && TrimStart(s) == s[|s| - |TrimStart(s)|..]
    ensures forall i | 0 <= i < |s| - |TrimStart(s)| :: IsWhitespace(s[i])
    ensures TrimStart(s) == [] || !IsWhitespace(TrimStart(s)[0])
    decreases |s|
  {
    if |s| > 0 && IsWhitespace(s[0]) {
      var rest := s[1..];
      TrimStartSpec(rest);
      assert rest[|rest| - |TrimStart(rest)|..] == s[|s| - |TrimStart(rest)|..];
      forall i | 0 < i < |s| - |TrimStart(rest)|
        ensures IsWhitespace(s[i])
      {
        assert s[i] == rest[i - 1];
      }
    }
  }

  /** `trim_end` keeps a prefix, drops only whitespace, and stops at a non-blank. */
  lemma {:induction false} TrimEndSpec(s: string)
    ensures |TrimEnd(s)| <= |s| && TrimEnd(s) == s[..|TrimEnd(s)|]
    ensures forall i | |TrimEnd(s)| <= i < |s| :: IsWhitespace(s[i])
    ensures TrimEnd(s) == [] || !IsWhitespace(TrimEnd(s)[|TrimEnd(s)| - 1])
    decreases |s|
  {
    if |s| > 0 && IsWhitespace(s[|s| - 1]) {
      var rest := s[..|s| - 1];
      TrimEndSpec(rest);
      assert rest[..|TrimEnd(rest)|] == s[..|TrimEnd(rest)|];
      forall i | |TrimEnd(rest)| <= i < |s| - 1
        ensures IsWhitespace(s[i])
      {
        assert s[i] == rest[i];
      }
    }
  }

  /** Number of leading whitespace characters that `trim` drops. */
  function TrimOffset(s: string): (k: nat)
    ensures k <= |s|
  {
    TrimStartSpec(s);
    |s| - |TrimStart(s)|
  }

  /** What `trim` keeps has whitespace on neither end. */
  lemma TrimHasNoOuterWhitespace(s: string)
    ensures HasNoOuterWhitespace(Trim(s))
  {
    var u := TrimStart(s);
    var t := TrimEnd(u);
    TrimStartSpec(s);
    TrimEndSpec(u);
    assert Trim(s) == t;
    if t != [] {
      assert t[0] == u[0];
      assert !IsWhitespace(u[0]);
    }
  }

  /** What `trim` keeps is the slice of the input that starts after the leading whitespace, and
      only whitespace is dropped around it. */
  lemma TrimSlice(s: string)
    ensures TrimOffset(s) + |Trim(s)| <= |s|
    ensures s[TrimOffset(s)..TrimOffset(s) + |Trim(s)|] == Trim(s)
    ensures AllWhitespace(s[..TrimOffset(s)]) && AllWhitespace(s[TrimOffset(s) + |Trim(s)|..])
  {
    var u := TrimStart(s);
    TrimStartSpec(s);
    var i := |s| - |u|;
    var t := TrimEnd(u);
    TrimEndSpec(u);
    SliceOfSuffix(s, u, t, i);
    BlankPrefix(s, i);
    BlankTail(s, u, i, |t|);
  }

  /** A prefix of the suffix that starts at `i` is the slice of the whole that starts at `i`. */
  lemma SliceOfSuffix(s: string, u: string, t: string, i: nat)
    requires i <= |s| && u == s[i..] && |t| <= |u| && t == u[..|t|]
    ensures s[i..i + |t|] == t
  {
  }

  /** Leading whitespace makes a blank prefix. */
  lemma BlankPrefix(s: string, i: nat)
    requires i <= |s| && forall k | 0 <= k < i :: IsWhitespace(s[k])
    ensures AllWhitespace(s[..i])
  {
    assert forall k | 0 <= k < i :: s[..i][k] == s[k];
  }

  /** Trailing whitespace of the suffix that starts at `i` makes a blank tail of the whole. */
  lemma BlankTail(s: string, u: string, i: nat, n: nat)
    requires i <= |s| && u == s[i..] && n <= |u| && forall k | n <= k < |u| :: IsWhitespace(u[k])
    ensures AllWhitespace(s[i + n..])
  {
    var tail := s[i + n..];
    forall j | 0 <= j < |tail| ensures IsWhitespace(tail[j]) {
      assert tail[j] == u[n + j];
    }
  }

  /** `trim` returns the empty string exactly for blank input. */
  lemma TrimEmptyIffBlank(s: string)
    ensures Trim(s) == [] <==> AllWhitespace(s)
  {
    var u := TrimStart(s);
    TrimStartSpec(s);
    TrimEndSpec(u);
    if Trim(s) == [] {
      assert u == [];
    }
  }

  /** A string without outer whitespace is its own trim; in particular `trim` is idempotent. */
  lemma TrimFixesUntrimmed(s: string)
    requires HasNoOuterWhitespace(s)
    ensures Trim(s) == s
  {
  }

  lemma TrimIdempotent(s: string)
    ensures Trim(Trim(s)) == Trim(s)
  {
    TrimHasNoOuterWhitespace(s);
    TrimFixesUntrimmed(Trim(s));
  }

  // ---------------------------------------------------------------- prefixes

  predicate StartsWith(s: string, prefix: string)
  {
    |prefix| <= |s| && s[..|prefix|] == prefix
  }

  /** `str::strip_prefix(c).unwrap_or(s)`: drops one leading `c` if there is one. */
  function StripPrefixChar(s: string, c: char): (t: string)
    ensures t == if |s| > 0 && s[0] == c then s[1..] else s
  {
    if |s| > 0 && s[0] == c then s[1..] else s
  }

  // ---------------------------------------------------------------- UTF-8 length

  predicate IsAscii(c: char)
  {
    c as int < 0x80
  }

  predicate AllAscii(s: string)
  {
    forall i | 0 <= i < |s| :: IsAscii(s[i])
  }

  /** Bytes of `c` in UTF-8. */
  function Utf8Width(c: char): (n: nat)
    ensures 1 <= n <= 4
    ensures n == 1 <==> IsAscii(c)
  {
    if c as int < 0x80 then 1
    else if c as int < 0x800 then 2
    else if c as int < 0x1_0000 then 3
    else 4
  }

  /** `str::len`: the UTF-8 byte length, which is at least the number of characters and equal to
      it exactly when every character is ASCII. */
  function Utf8Len(s: string): (n: nat)
    ensures n >= |s|
    ensures n == |s| <==> AllAscii(s)
  {
    if s == [] then 0
    else
      var n := Utf8Width(s[0]) + Utf8Len(s[1..]);
      assert AllAscii(s) <==> IsAscii(s[0]) && AllAscii(s[1..]) by {
        if IsAscii(s[0]) && AllAscii(s[1..]) {
          forall i | 0 <= i < |s| ensures IsAscii(s[i]) {
            if i > 0 { assert s[i] == s[1..][i - 1]; }
          }
        }
      }
      n
  }

  /** The byte length of two strings one after the other is the sum of their byte lengths. */
  lemma {:induction false} Utf8LenAppend(x: string, y: string)
    ensures Utf8Len(x + y) == Utf8Len(x) + Utf8Len(y)
    decreases |x|
  {
    if x != [] {
      assert (x + y)[0] == x[0] && (x + y)[1..] == x[1..] + y;
      Utf8LenAppend(x[1..], y);
    } else {
      assert x + y == y;
    }
  }

  /** Byte offset `n` falls between two characters of `s` (`str::is_char_boundary`): some prefix
      of `s` fills exactly `n` bytes. */
  ghost predicate IsCharBoundary(s: string, n: nat)
  {
    exists k | 0 <= k <= |s| :: Utf8Len(s[..k]) == n
  }

  /** The number of leading characters of `s` that fill exactly `n` bytes, or None when byte
      offset `n` falls inside a character or past the end. */
  function BoundaryIndex(s: string, n: nat): (k: Option<nat>)
    ensures k.Some? ==> k.value <= |s| && Utf8Len(s[..k.value]) == n
    decreases |s|
  {
    if n == 0 then Some(0)
    else if s == [] || n < Utf8Width(s[0]) then None
    else
      match BoundaryIndex(s[1..], n - Utf8Width(s[0]))
      case None => None
      case Some(k) =>
        assert s[..k + 1][0] == s[0] && s[..k + 1][1..] == s[1..][..k];
        Some(k + 1)
  }

  /** `BoundaryIndex` finds every boundary: a prefix of `n` bytes is the one it reports. */
  lemma {:induction false} BoundaryIndexComplete(s: string, n: nat, k: nat)
    requires k <= |s| && Utf8Len(s[..k]) == n
    ensures BoundaryIndex(s, n) == Some(k)
    decreases |s|
  {
    if k > 0 {
      assert s[..k][0] == s[0] && s[..k][1..] == s[1..][..k - 1];
      BoundaryIndexComplete(s[1..], n - Utf8Width(s[0]), k - 1);
    }
  }

  /** Two character boundaries bound a slice whose byte length is their difference. */
  lemma PrefixBytes(s: string, i: nat, j: nat)
    requires i <= |s| && j <= |s| && Utf8Len(s[..i]) <= Utf8Len(s[..j])
    ensures i <= j && Utf8Len(s[i..j]) == Utf8Len(s[..j]) - Utf8Len(s[..i])
  {
    if j < i {
      assert s[..i] == s[..j] + s[j..i];
      Utf8LenAppend(s[..j], s[j..i]);
    } else {
      assert s[..j] == s[..i] + s[i..j];
      Utf8LenAppend(s[..i], s[i..j]);
    }
  }

  /** `&s[a..b]` on byte offsets: the characters between the two offsets, or None where Rust
      panics because an offset falls inside a character or past the end. */
  function ByteSlice(s: string, a: nat, b: nat): (r: Option<string>)
    requires a <= b
    ensures r.Some? ==> Utf8Len(r.value) == b - a
  {
    match BoundaryIndex(s, a)
    case None => None
    case Some(i) =>
      match BoundaryIndex(s, b)
      case None => None
      case Some(j) =>
        PrefixBytes(s, i, j);
        Some(s[i..j])
  }

  /** The slice exists exactly when both offsets are character boundaries. */
  lemma ByteSliceSpec(s: string, a: nat, b: nat)
    requires a <= b
    ensures ByteSlice(s, a, b).Some? <==> IsCharBoundary(s, a) && IsCharBoundary(s, b)
  {
    if IsCharBoundary(s, a) && IsCharBoundary(s, b) {
      var i :| 0 <= i <= |s| && Utf8Len(s[..i]) == a;
      var j :| 0 <= j <= |s| && Utf8Len(s[..j]) == b;
      BoundaryIndexComplete(s, a, i);
      BoundaryIndexComplete(s, b, j);
    }
  }

  /** The end of a string is a character boundary. */
  lemma EndIsBoundary(s: string)
    ensures BoundaryIndex(s, Utf8Len(s)) == Some(|s|)
  {
    assert s[..|s|] == s;
    BoundaryIndexComplete(s, Utf8Len(s), |s|);
  }

  /** In ASCII text every byte is a character, so byte offsets slice as character positions. */
  lemma AsciiByteSlice(s: string, a: nat, b: nat)
    requires AllAscii(s) && a <= b <= |s|
    ensures ByteSlice(s, a, b) == Some(s[a..b])
  {
    assert AllAscii(s[..a]) && AllAscii(s[..b]);
    BoundaryIndexComplete(s, a, a);
    BoundaryIndexComplete(s, b, b);
  }

  // ---------------------------------------------------------------- digits and number parsing

  predicate IsAsciiHexDigit(c: char)
  {
    ('0' <= c <= '9') || ('a' <= c <= 'f') || ('A' <= c <= 'F')
  }

  /** `char::to_digit(radix)`. */
  function DigitValue(c: char, radix: nat): (d: Option<nat>)
    requires 2 <= radix <= 36
    ensures d.Some? ==> d.value < radix
  {
    var v :=
      if '0' <= c <= '9' then c as int - '0' as int
      else if 'a' <= c <= 'z' then c as int - 'a' as int + 10
      else if 'A' <= c <= 'Z' then c as int - 'A' as int + 10
      else 36;
    if v < radix then Some(v) else None
  }

  lemma HexDigitValue(c: char)
    ensures DigitValue(c, 16).Some? <==> IsAsciiHexDigit(c)
  {
  }

  predicate AllDigits(s: string, radix: nat)
    requires 2 <= radix <= 36
  {
    forall i | 0 <= i < |s| :: DigitValue(s[i], radix).Some?
  }

  /** The value of a digit string read most significant digit first. */
  function DigitsValue(s: string, radix: nat): nat
    requires 2 <= radix <= 36
    requires AllDigits(s, radix)
  {
    if s == [] then 0
    else DigitsValue(s[..|s| - 1], radix) * radix + DigitValue(s[|s| - 1], radix).value
  }

  /** `from_str_radix` for an unsigned integer type whose values are below `limit`: an optional
      leading '+' followed by at least one digit; any other character (including '-') or a value
      at or above `limit` is an error. */
  function ParseUnsigned(s: string, radix: nat, limit: nat): (r: Option<nat>)
    requires 2 <= radix <= 36
    ensures r.Some? ==> r.value < limit
  {
    if s == [] then None
    else
      var digits := if s[0] == '+' then s[1..] else s;
      if digits == [] || !AllDigits(digits, radix) then None
      else if DigitsValue(digits, radix) < limit then Some(DigitsValue(digits, radix))
      else None
  }

  function DecimalDigit(d: nat): (c: char)
    requires d < 10
    ensures DigitValue(c, 10) == Some(d)
  {
    (48 + d) as char
  }

  /** `n.to_string()`: decimal, no sign, no leading zeros. */
  function NatToString(n: nat): (s: string)
    ensures s != [] && AllDigits(s, 10)
    ensures s[0] != '+'
  {
    if n < 10 then [DecimalDigit(n)]
    else NatToString(n / 10) + [DecimalDigit(n % 10)]
  }

  /** Reading back a formatted number gives the number. */
  lemma {:induction false} NatToStringValue(n: nat)
    ensures DigitsValue(NatToString(n), 10) == n
  {
    var s := NatToString(n);
    if n >= 10 {
      NatToStringValue(n / 10);
      assert s[..|s| - 1] == NatToString(n / 10);
    }
  }

  lemma ParseFormattedNat(n: nat, limit: nat)
    requires n < limit
    ensures ParseUnsigned(NatToString(n), 10, limit) == Some(n)
  {
    NatToStringValue(n);
  }

  // ---------------------------------------------------------------- split

  /** `str::split(sep)` collected into a vector: always at least one part, none containing `sep`. */
  function Split(s: string, sep: char): (parts: seq<string>)
    ensures |parts| >= 1
    ensures forall i | 0 <= i < |parts| :: sep !in parts[i]
  {
    if s == [] then [""]
    else
      var rest := Split(s[1..], sep);
      if s[0] == sep then [""] + rest
      else [[s[0]] + rest[0]] + rest[1..]
  }

  function Join(parts: seq<string>, sep: char): string
  {
    if parts == [] then ""
    else if |parts| == 1 then parts[0]
    else parts[0] + [sep] + Join(parts[1..], sep)
  }

  /** The position of the first `c` in `s`, or `|s|` when there is none. */
  function FirstIndex(s: string, c: char): (i: nat)
    ensures i <= |s| && c !in s[..i] && (i < |s| ==> s[i] == c)
  {
    if s == [] then 0
    else if s[0] == c then 0
    else
      var i := 1 + FirstIndex(s[1..], c);
      assert s[..i] == [s[0]] + s[1..][..i - 1];
      i
  }

  /** `str::lines`: the text cut at each '\n', a '\r' just before a '\n' dropped, and no final
      empty line when the text ends with a newline (so "" has no lines). */
  function Lines(s: string): (lines: seq<string>)
    decreases |s|
  {
    if s == [] then []
    else
      var i := FirstIndex(s, '\n');
      var line := if i < |s| && i > 0 && s[i - 1] == '\r' then s[..i - 1] else s[..i];
      [line] + (if i < |s| then Lines(s[i + 1..]) else [])
  }

  function Occurrences(s: string, c: char): nat
  {
    if s == [] then 0 else (if s[0] == c then 1 else 0) + Occurrences(s[1..], c)
  }

  /** Joining the parts with the separator gives back the string, and there is one more part
      than there are separators. */
  lemma {:induction false} SplitJoin(s: string, sep: char)
    ensures Join(Split(s, sep), sep) == s
    ensures |Split(s, sep)| == Occurrences(s, sep) + 1
  {
    if s != [] {
      SplitJoin(s[1..], sep);
      var rest := Split(s[1..], sep);
      if s[0] == sep {
        assert Split(s, sep)[1..] == rest;
      } else {
        var parts := Split(s, sep);
        if |rest| == 1 {
          assert parts == [[s[0]] + rest[0]];
        } else {
          assert parts[1..] == rest[1..];
          assert Join(rest, sep) == rest[0] + [sep] + Join(rest[1..], sep);
        }
      }
    }
  }

  /** A string without the separator is a single part. */
  lemma {:induction false} SplitWithoutSep(s: string, sep: char)
    requires sep !in s
    ensures Split(s, sep) == [s]
  {
    if s != [] {
      SplitWithoutSep(s[1..], sep);
      assert [s[0]] + s[1..] == s;
    }
  }

  /** A separator after a separator-free prefix ends the first part there. */
  lemma {:induction false} SplitAtFirstSep(a: string, b: string, sep: char)
    requires sep !in a
    ensures Split(a + [sep] + b, sep) == [a] + Split(b, sep)
  {
    if a != [] {
      var s := a + [sep] + b;
      SplitAtFirstSep(a[1..], b, sep);
      assert s[0] == a[0] && s[1..] == a[1..] + [sep] + b;
      assert [a[0]] + a[1..] == a;
    } else {
      assert (a + [sep] + b)[1..] == b;
    }
  }

  /** Decimal text holds no comma. */
  lemma DigitsHaveNoComma(s: string)
    requires AllDigits(s, 10)
    ensures ',' !in s
  {
  }

  // ---------------------------------------------------------------- lower case

  function LowerChar(c: char): char
  {
    if 'A' <= c <= 'Z' then (c as int + 32) as char else c
  }

  /** `str::to_lowercase`, restricted to ASCII letters. */
  function ToLower(s: string): (t: string)
    ensures |t| == |s|
    ensures forall i | 0 <= i < |s| :: t[i] == LowerChar(s[i])
  {
    seq(|s|, i requires 0 <= i < |s| => LowerChar(s[i]))
  }

  function UpperChar(c: char): char
  {
    if 'a' <= c <= 'z' then (c as int - 32) as char else c
  }

  /** `str::to_uppercase`, restricted to ASCII letters. */
  function ToUpper(s: string): (t: string)
    ensures |t| == |s|
    ensures forall i | 0 <= i < |s| :: t[i] == UpperChar(s[i])
  {
    seq(|s|, i requires 0 <= i < |s| => UpperChar(s[i]))
  }

  lemma ToLowerIdempotent(s: string)
    ensures ToLower(ToLower(s)) == ToLower(s)
  {
  }

  // ---------------------------------------------------------------- ordering

  /** `String`'s `<`: lexicographic by code point (which is UTF-8 byte order). */
  predicate Less(a: string, b: string)
  {
    if a == [] then b != []
    else if b == [] then false
    else if a[0] != b[0] then a[0] < b[0]
    else Less(a[1..], b[1..])
  }

  lemma {:induction false} LessIrreflexive(a: string)
    ensures !Less(a, a)
  {
    if a != [] { LessIrreflexive(a[1..]); }
  }

  lemma {:induction false} LessTransitive(a: string, b: string, c: string)
    requires Less(a, b) && Less(b, c)
    ensures Less(a, c)
  {
    if a != [] && b != [] && c != [] && a[0] == b[0] && b[0] == c[0] {
      LessTransitive(a[1..], b[1..], c[1..]);
    }
  }

  lemma {:induction false} LessTotal(a: string, b: string)
    requires a != b
    ensures Less(a, b) || Less(b, a)
  {
    if a != [] && b != [] && a[0] == b[0] {
      assert a == [a[0]] + a[1..] && b == [b[0]] + b[1..];
      LessTotal(a[1..], b[1..]);
    }
  }
}
