/** The JavaScript string operations the server and the client rely on:
    `trim`, `toUpperCase`, `length`, `split` and decimal printing of
    integers. Strings are sequences of characters; `length` counts UTF-16
    code units, as JavaScript does. */
module Text {

  /** The characters `String.prototype.trim` removes: the ECMAScript
      WhiteSpace and LineTerminator code points. */
  predicate IsJsWhitespace(c: char) {
    || c == '\t' || c == '\n' || c == '\U{B}' || c == '\U{C}' || c == '\r' || c == ' '
    || c == '\U{A0}' || c == '\U{1680}' || ('\U{2000}' <= c <= '\U{200A}')
    || c == '\U{2028}' || c == '\U{2029}' || c == '\U{202F}' || c == '\U{205F}'
    || c == '\U{3000}' || c == '\U{FEFF}'
  }

  /** `s.length`: characters outside the Basic Multilingual Plane take two
      UTF-16 code units. */
  function Utf16Length(s: string): (n: nat)
    ensures |s| <= n <= 2 * |s|
  {
    if s == [] then 0 else (if s[0] as int > 0xFFFF then 2 else 1) + Utf16Length(s[1..])
  }

  lemma {:induction false} Utf16LengthAppend(a: string, b: string)
    ensures Utf16Length(a + b) == Utf16Length(a) + Utf16Length(b)
  {
    if a == [] {
      assert a + b == b;
    } else {
      assert (a + b)[0] == a[0] && (a + b)[1..] == a[1..] + b;
      Utf16LengthAppend(a[1..], b);
    }
  }

  /** A slice of a string is never longer, in code units, than the string. */
  lemma {:induction false} Utf16LengthSlice(s: string, i: nat, j: nat)
    requires i <= j <= |s|
    ensures Utf16Length(s[i..j]) <= Utf16Length(s)
  {
    if i > 0 {
      Utf16LengthSlice(s[1..], i - 1, j - 1);
      assert s[1..][i - 1..j - 1] == s[i..j];
    } else if j > 0 {
      Utf16LengthSlice(s[1..], 0, j - 1);
      assert s[..j][1..] == s[1..][0..j - 1];
      assert s[..j][0] == s[0];
    }
  }

  /** Removes leading whitespace: the result is the suffix of `s` that
      starts at its first non-whitespace character. */
  function TrimStart(s: string): (r: string)
    ensures |r| <= |s| && r == s[|s| - |r|..]
    ensures r == [] || !IsJsWhitespace(r[0])
    ensures forall k :: 0 <= k < |s| - |r| ==> IsJsWhitespace(s[k])
  {
    if s != [] && IsJsWhitespace(s[0]) then TrimStart(s[1..]) else s
  }

  /** Removes trailing whitespace: the result is the prefix of `s` that
      ends at its last non-whitespace character. */
  function TrimEnd(s: string): (r: string)
    ensures |r| <= |s| && r == s[..|r|]
    ensures r == [] || !IsJsWhitespace(r[|r| - 1])
    ensures forall k :: |r| <= k < |s| ==> IsJsWhitespace(s[k])
  {
    if s != [] && IsJsWhitespace(s[|s| - 1]) then TrimEnd(s[..|s| - 1]) else s
  }

  /** `s.trim()`. */
  function Trim(s: string): string {
    TrimEnd(TrimStart(s))
  }

  /** Neither end of a string is whitespace. */
  predicate IsTrimmed(s: string) {
    s == [] || (!IsJsWhitespace(s[0]) && !IsJsWhitespace(s[|s| - 1]))
  }

  /** Where the trimmed string starts in the original. */
  function TrimOffset(s: string): nat {
    |s| - |TrimStart(s)|
  }

  /** The trimmed string is a slice of the input with whitespace cut off
      both ends, and only whitespace was cut. */
  lemma TrimIsSlice(s: string)
    ensures IsTrimmed(Trim(s))
    ensures TrimOffset(s) + |Trim(s)| <= |s|
    ensures Trim(s) == s[TrimOffset(s)..TrimOffset(s) + |Trim(s)|]
    ensures Utf16Length(Trim(s)) <= Utf16Length(s)
  {
    var a := TrimStart(s);
    var i := |s| - |a|;
    var r := TrimEnd(a);
    assert r == s[i..i + |r|] by {
      assert a == s[i..];
      assert r == a[..|r|];
      assert s[i..][..|r|] == s[i..i + |r|];
    }
    assert IsTrimmed(r) by {
      if r != [] {
        assert r[0] == a[0];
      }
    }
    Utf16LengthSlice(s, i, i + |r|);
  }

  lemma TrimStartOfTrimmed(s: string)
    requires s == [] || !IsJsWhitespace(s[0])
    ensures TrimStart(s) == s
  {
  }

  lemma TrimEndOfTrimmed(s: string)
    requires s == [] || !IsJsWhitespace(s[|s| - 1])
    ensures TrimEnd(s) == s
  {
  }

  /** Trimming a string that has no whitespace at either end changes nothing. */
  lemma TrimOfTrimmed(s: string)
    requires IsTrimmed(s)
    ensures Trim(s) == s
  {
    TrimStartOfTrimmed(s);
    TrimEndOfTrimmed(s);
  }

  /** `trim` is idempotent. */
  lemma TrimIdempotent(s: string)
    ensures Trim(Trim(s)) == Trim(s)
  {
    TrimIsSlice(s);
    TrimOfTrimmed(Trim(s));
  }

  /** Every character is whitespace. */
  predicate IsBlank(s: string) {
    forall k :: 0 <= k < |s| ==> IsJsWhitespace(s[k])
  }

  /** `s.trim().length === 0` exactly when `s` is all whitespace. */
  lemma TrimmedEmptyIffBlank(s: string)
    ensures Utf16Length(Trim(s)) == 0 <==> IsBlank(s)
  {
    var a := TrimStart(s);
    if a != [] {
      assert !IsJsWhitespace(a[0]);
    }
  }

  /** The characters of an invite code: `[A-Z0-9]`. */
  predicate IsCodeChar(c: char) {
    ('A' <= c <= 'Z') || ('0' <= c <= '9')
  }

  /** A hexadecimal digit: `[0-9a-fA-F]`. */
  predicate IsHexDigit(c: char) {
    ('0' <= c <= '9') || ('a' <= c <= 'f') || ('A' <= c <= 'F')
  }

  /** A lower-case letter whose upper case lies 32 code points below it:
      Basic Latin, Latin-1 (but `÷`), Greek (but final sigma), the basic
      Cyrillic block and fullwidth Latin. */
  predicate Shift32Lower(c: char) {
    ('a' <= c <= 'z') || ('\U{E0}' <= c <= '\U{FE}' && c != '\U{F7}')
    || ('\U{3B1}' <= c <= '\U{3CB}' && c != '\U{3C2}')
    || ('\U{430}' <= c <= '\U{44F}') || ('\U{FF41}' <= c <= '\U{FF5A}')
  }

  /** A lower-case letter of an alternating case pair of Latin Extended-A
      or Latin Extended Additional, whose upper case is the code point
      just below it. */
  predicate PairedLower(c: char) {
    var x := c as int;
    (x % 2 == 1 && (0x101 <= x <= 0x12F || 0x133 <= x <= 0x137 || 0x14B <= x <= 0x177
                    || 0x1E01 <= x <= 0x1E95 || 0x1EA1 <= x <= 0x1EFF))
    || (x % 2 == 0 && (0x13A <= x <= 0x148 || 0x17A <= x <= 0x17E))
  }

  /** `c.toUpperCase()` on the letters of the Latin, Greek and Cyrillic
      blocks listed above, together with the characters whose upper case is
      longer than one character (sharp s and the Latin ligatures) and the
      ones whose upper case is ASCII (dotless i, long s). Every other
      character is left as it is. */
  function UpperChar(c: char): (r: string)
    ensures 1 <= |r| <= 3
  {
    if Shift32Lower(c) then [(c as int - 32) as char]
    else if PairedLower(c) then [(c as int - 1) as char]
    else if '\U{450}' <= c <= '\U{45F}' then [(c as int - 80) as char]
    else if '\U{3AD}' <= c <= '\U{3AF}' then [(c as int - 37) as char]
    else if '\U{3CD}' <= c <= '\U{3CE}' then [(c as int - 63) as char]
    else if c == '\U{3AC}' then "\U{386}"
    else if c == '\U{3CC}' then "\U{38C}"
    else if c == '\U{3C2}' then "\U{3A3}"
    else if c == '\U{B5}' then "\U{39C}"
    else if c == '\U{FF}' then "\U{178}"
    else if c == '\U{131}' then "I"
    else if c == '\U{17F}' then "S"
    else if c == '\U{DF}' then "SS"
    else if c == '\U{FB00}' then "FF"
    else if c == '\U{FB01}' then "FI"
    else if c == '\U{FB02}' then "FL"
    else if c == '\U{FB03}' then "FFI"
    else if c == '\U{FB04}' then "FFL"
    else if c == '\U{FB05}' || c == '\U{FB06}' then "ST"
    else [c]
  }

  /** `s.toUpperCase()`. */
  function ToUpper(s: string): (r: string)
    ensures |r| >= |s|
  {
    if s == [] then [] else UpperChar(s[0]) + ToUpper(s[1..])
  }

  /** Upper-casing reaches past ASCII: `é` becomes `É`, a final sigma a
      capital sigma, `ж` becomes `Ж` and `ạ` becomes `Ạ`. */
  lemma ToUpperBeyondAscii()
    ensures ToUpper("\U{E9}") == "\U{C9}"
    ensures ToUpper("\U{3C2}") == "\U{3A3}"
    ensures ToUpper("\U{436}") == "\U{416}"
    ensures ToUpper("\U{1EA1}") == "\U{1EA0}"
  {
  }

  lemma {:induction false} ToUpperAppend(a: string, b: string)
    ensures ToUpper(a + b) == ToUpper(a) + ToUpper(b)
  {
    if a == [] {
      assert a + b == b;
    } else {
      assert (a + b)[0] == a[0] && (a + b)[1..] == a[1..] + b;
      ToUpperAppend(a[1..], b);
    }
  }

  /** Upper-casing a string made of `[A-Z0-9]` changes nothing. */
  lemma {:induction false} ToUpperOfCodeChars(s: string)
    requires forall k :: 0 <= k < |s| ==> IsCodeChar(s[k])
    ensures ToUpper(s) == s
  {
    if s != [] {
      ToUpperOfCodeChars(s[1..]);
    }
  }

  /** Upper-casing is idempotent. */
  lemma {:induction false} ToUpperIdempotent(s: string)
    ensures ToUpper(ToUpper(s)) == ToUpper(s)
  {
    if s != [] {
      var u := UpperChar(s[0]);
      assert ToUpper(u) == u by {
        UpperCharIsUpper(s[0]);
      }
      ToUpperAppend(u, ToUpper(s[1..]));
      ToUpperIdempotent(s[1..]);
    }
  }

  lemma UpperCharIsUpper(c: char)
    ensures ToUpper(UpperChar(c)) == UpperChar(c)
  {
    var u := UpperChar(c);
    if |u| == 1 {
      UpperLetterFixed(c);
      assert ToUpper(u) == UpperChar(u[0]) + ToUpper([]);
    } else {
      ToUpperOfCodeChars(u);
    }
  }

  /** A one-character upper case is its own upper case. */
  lemma UpperLetterFixed(c: char)
    requires |UpperChar(c)| == 1
    ensures UpperChar(UpperChar(c)[0]) == UpperChar(c)
  {
    if Shift32Lower(c) {
      Shift32Fixed(c);
    } else if PairedLower(c) {
      PairedFixed(c);
    } else if '\U{450}' <= c <= '\U{45F}' || '\U{3AD}' <= c <= '\U{3AF}' || '\U{3CD}' <= c <= '\U{3CE}' {
      assert !Shift32Lower(UpperChar(c)[0]) && !PairedLower(UpperChar(c)[0]);
    }
  }

  lemma Shift32Fixed(c: char)
    requires Shift32Lower(c)
    ensures UpperChar(UpperChar(c)[0]) == UpperChar(c)
  {
    var d := UpperChar(c)[0];
    assert d as int == c as int - 32;
    assert !Shift32Lower(d) && !PairedLower(d);
  }

  lemma PairedFixed(c: char)
    requires !Shift32Lower(c) && PairedLower(c)
    ensures UpperChar(UpperChar(c)[0]) == UpperChar(c)
  {
    var d := UpperChar(c)[0];
    assert d as int == c as int - 1;
    assert !Shift32Lower(d) && !PairedLower(d);
  }

  /** Every character of a string is a code character. */
  predicate AllCodeChars(s: string) {
    forall k :: 0 <= k < |s| ==> IsCodeChar(s[k])
  }

  /** A string made of code characters has no whitespace and counts one
      UTF-16 code unit per character. */
  lemma {:induction false} CodeCharsShape(s: string)
    requires AllCodeChars(s)
    ensures IsTrimmed(s) && Utf16Length(s) == |s|
  {
    if s != [] {
      CodeCharsShape(s[1..]);
    }
  }

  /** The number of occurrences of `c` in `s`. */
  function Occurrences(s: string, c: char): nat {
    if s == [] then 0 else (if s[0] == c then 1 else 0) + Occurrences(s[1..], c)
  }

  /** `s.split(sep)` for a one-character separator. */
  function Split(s: string, sep: char): (parts: seq<string>)
    ensures |parts| == Occurrences(s, sep) + 1
    ensures forall k :: 0 <= k < |parts| ==> sep !in parts[k]
  {
    if s == [] then [""]
    else
      var rest := Split(s[1..], sep);
      if s[0] == sep then [""] + rest else [[s[0]] + rest[0]] + rest[1..]
  }

  /** Joining the pieces with the separator gives back the string. */
  function Join(parts: seq<string>, sep: char): string
    requires |parts| >= 1
  {
    if |parts| == 1 then parts[0] else parts[0] + [sep] + Join(parts[1..], sep)
  }

  lemma {:induction false} SplitJoin(s: string, sep: char)
    ensures Join(Split(s, sep), sep) == s
  {
    if s != [] {
      SplitJoin(s[1..], sep);
      var rest := Split(s[1..], sep);
      if s[0] != sep {
        if |rest| > 1 {
          assert ([[s[0]] + rest[0]] + rest[1..])[1..] == rest[1..];
        }
      } else {
        assert ([""] + rest)[1..] == rest;
      }
    }
  }

  /** A string without the separator is one piece. */
  lemma {:induction false} SplitWithoutSep(s: string, sep: char)
    requires sep !in s
    ensures Split(s, sep) == [s]
  {
    if s != [] {
      SplitWithoutSep(s[1..], sep);
      assert [s[0]] + s[1..] == s;
    }
  }

  /** A first piece without the separator, then the separator: that piece,
      then the pieces of the rest. */
  lemma {:induction false} SplitAfterPiece(a: string, sep: char, b: string)
    requires sep !in a
    ensures Split(a + [sep] + b, sep) == [a] + Split(b, sep)
  {
    if a == [] {
      assert a + [sep] + b == [sep] + b;
      assert ([sep] + b)[1..] == b;
    } else {
      SplitAfterPiece(a[1..], sep, b);
      var s := a + [sep] + b;
      assert s[1..] == a[1..] + [sep] + b;
      assert [a[0]] + a[1..] == a;
    }
  }

  /** Splitting pieces joined with a separator none of them contains gives
      the pieces back. */
  lemma {:induction false} SplitOfJoin(parts: seq<string>, sep: char)
    requires |parts| >= 1 && forall k :: 0 <= k < |parts| ==> sep !in parts[k]
    ensures Split(Join(parts, sep), sep) == parts
  {
    if |parts| == 1 {
      SplitWithoutSep(parts[0], sep);
    } else {
      SplitOfJoin(parts[1..], sep);
      SplitAfterPiece(parts[0], sep, Join(parts[1..], sep));
      assert [parts[0]] + parts[1..] == parts;
    }
  }

  /** The ends of a join are the ends of its first and last pieces. */
  lemma {:induction false} JoinEnds(parts: seq<string>, sep: char)
    requires |parts| >= 1 && forall k :: 0 <= k < |parts| ==> parts[k] != []
    ensures var s := Join(parts, sep);
      s != [] && s[0] == parts[0][0] && s[|s| - 1] == parts[|parts| - 1][|parts[|parts| - 1]| - 1]
  {
    if |parts| > 1 {
      JoinEnds(parts[1..], sep);
    }
  }

  function DigitChar(d: nat): char
    requires d < 10
  {
    ('0' as int + d) as char
  }

  /** The decimal form of a natural number, as template literals print it. */
  function DecimalString(n: nat): (r: string)
    ensures 1 <= |r|
    ensures forall k :: 0 <= k < |r| ==> '0' <= r[k] <= '9'
    ensures n >= 10 ==> |r| >= 2
  {
    if n < 10 then [DigitChar(n)] else DecimalString(n / 10) + [DigitChar(n % 10)]
  }

  /** Different numbers print differently. */
  lemma {:induction false} DecimalStringInjective(a: nat, b: nat)
    requires DecimalString(a) == DecimalString(b)
    ensures a == b
  {
    var da, db := DecimalString(a), DecimalString(b);
    if a < 10 {
      assert |db| == 1;
      assert b < 10;
      assert da[0] == db[0];
    } else {
      assert |db| >= 2;
      assert b >= 10;
      assert da[|da| - 1] == db[|db| - 1];
      assert da[..|da| - 1] == DecimalString(a / 10);
      assert db[..|db| - 1] == DecimalString(b / 10);
      DecimalStringInjective(a / 10, b / 10);
    }
  }
}
