/** The few JavaScript string operations the table components rely on:
    `toLowerCase`, `trim`, `includes`, `Array.prototype.join`,
    `replace(/"/g, '""')`, number-to-string conversion and the `x || ''`
    defaulting idiom. */
module JsStrings {
  import opened Wrappers

  // ---------------------------------------------------------------------
  // toLowerCase
  // ---------------------------------------------------------------------

  /** The upper-case letters this model lowers: ASCII, Latin-1, and the
      letters of Vietnamese (Ă Đ Ĩ Ũ Ơ Ư and the block U+1EA0..U+1EF9, where
      each upper-case letter at an even code point is followed by its
      lower-case form). */
  predicate IsUpper(c: char)
  {
    || ('A' <= c <= 'Z')
    || ('\U{C0}' <= c <= '\U{DE}' && c != '\U{D7}')
    || c == '\U{102}' || c == '\U{110}' || c == '\U{128}'
    || c == '\U{168}' || c == '\U{1A0}' || c == '\U{1AF}'
    || ('\U{1EA0}' <= c <= '\U{1EF8}' && (c as int) % 2 == 0)
  }

  /** The lower-case partners of the letters of `IsUpper`: ASCII and
      Latin-1 letters 32 code points above their capitals, ă đ ĩ ũ ơ ư,
      and the odd code points of the block U+1EA1..U+1EF9. */
  predicate IsLowerPartner(c: char)
  {
    || ('a' <= c <= 'z')
    || ('\U{E0}' <= c <= '\U{FE}' && c != '\U{F7}')
    || c == '\U{103}' || c == '\U{111}' || c == '\U{129}'
    || c == '\U{169}' || c == '\U{1A1}' || c == '\U{1B0}'
    || ('\U{1EA1}' <= c <= '\U{1EF9}' && (c as int) % 2 == 1)
  }

  /** `toUpperCase` on the letters of `IsLowerPartner`, the reference the
      lowering is checked against. */
  function UpperChar(c: char): char
  {
    if 'a' <= c <= 'z' || ('\U{E0}' <= c <= '\U{FE}' && c != '\U{F7}') then
      (c as int - 32) as char
    else if IsLowerPartner(c) then
      (c as int - 1) as char
    else
      c
  }

  /** `String.prototype.toLowerCase` on one character, restricted to the
      letters of `IsUpper`: a capital becomes its own lower-case letter,
      which `toUpperCase` turns back into it; every other character is left
      as it is. */
  function LowerChar(c: char): (d: char)
    ensures !IsUpper(d)
    ensures IsUpper(c) ==> IsLowerPartner(d) && UpperChar(d) == c
    ensures !IsUpper(c) ==> d == c
  {
    if 'A' <= c <= 'Z' || ('\U{C0}' <= c <= '\U{DE}' && c != '\U{D7}') then
      (c as int + 32) as char
    else if IsUpper(c) then
      (c as int + 1) as char
    else
      c
  }

  /** `s.toLowerCase()`, character by character. */
  function ToLower(s: string): (r: string)
  {
    seq(|s|, i requires 0 <= i < |s| => LowerChar(s[i]))
  }

  /** Lowering is idempotent: a lowered string has no upper-case letter left. */
  lemma ToLowerIdempotent(s: string)
    ensures ToLower(ToLower(s)) == ToLower(s)
  {
    var t := ToLower(s);
    forall i | 0 <= i < |t| ensures LowerChar(t[i]) == t[i] {
      assert !IsUpper(t[i]);
    }
  }

  /** Lowering distributes over concatenation. */
  lemma ToLowerConcat(a: string, b: string)
    ensures ToLower(a + b) == ToLower(a) + ToLower(b)
  {
  }

  // ---------------------------------------------------------------------
  // trim
  // ---------------------------------------------------------------------

  /** The characters `String.prototype.trim` removes: the ECMAScript
      WhiteSpace set (tab, vertical tab, form feed, space, no-break space,
      byte-order mark and the Unicode space separators) and the
      LineTerminator set (line feed, carriage return, U+2028, U+2029). */
  predicate IsWhitespace(c: char)
  {
    || c == '\t' || c == '\n' || c == '\U{B}' || c == '\U{C}' || c == '\r'
    || c == ' ' || c == '\U{A0}' || c == '\U{1680}'
    || ('\U{2000}' <= c <= '\U{200A}')
    || c == '\U{2028}' || c == '\U{2029}' || c == '\U{202F}'
    || c == '\U{205F}' || c == '\U{3000}' || c == '\U{FEFF}'
  }

  predicate AllWhitespace(s: string)
  {
    forall i :: 0 <= i < |s| ==> IsWhitespace(s[i])
  }

  function TrimStart(s: string): string
    decreases |s|
  {
    if |s| > 0 && IsWhitespace(s[0]) then TrimStart(s[1..]) else s
  }

  function TrimEnd(s: string): string
    decreases |s|
  {
    if |s| > 0 && IsWhitespace(s[|s| - 1]) then TrimEnd(s[..|s| - 1]) else s
  }

  /** `s.trim()`. */
  function Trim(s: string): string
  {
    TrimEnd(TrimStart(s))
  }

  lemma {:induction false} TrimStartFacts(s: string)
    ensures TrimStart(s) == "" <==> AllWhitespace(s)
    ensures TrimStart(s) != "" ==> !IsWhitespace(TrimStart(s)[0])
    decreases |s|
  {
    if |s| > 0 && IsWhitespace(s[0]) {
      TrimStartFacts(s[1..]);
      assert AllWhitespace(s) <==> AllWhitespace(s[1..]) by {
        if AllWhitespace(s[1..]) {
          forall i | 0 <= i < |s| ensures IsWhitespace(s[i]) {
            if i > 0 { assert s[i] == s[1..][i - 1]; }
          }
        }
      }
    }
  }

  lemma {:induction false} TrimEndKeepsHead(s: string)
    requires |s| > 0 && !IsWhitespace(s[0])
    ensures TrimEnd(s) != ""
    decreases |s|
  {
    if IsWhitespace(s[|s| - 1]) {
      TrimEndKeepsHead(s[..|s| - 1]);
    }
  }

  /** A string trims to nothing exactly when every character of it is
      whitespace: this is the test `!searchValue.trim()`. */
  lemma TrimEmptyIff(s: string)
    ensures Trim(s) == "" <==> AllWhitespace(s)
  {
    TrimStartFacts(s);
    if TrimStart(s) != "" {
      TrimEndKeepsHead(TrimStart(s));
    }
  }

  // ---------------------------------------------------------------------
  // includes
  // ---------------------------------------------------------------------

  /** `hay.includes(needle)`: `needle` occurs in `hay` at some offset. */
  predicate Includes(hay: string, needle: string)
    decreases |hay|
  {
    needle <= hay || (|hay| > 0 && Includes(hay[1..], needle))
  }

  /** `needle` occurs in `hay` starting at offset `k`. */
  ghost predicate OccursAt(hay: string, needle: string, k: int)
  {
    0 <= k && k + |needle| <= |hay| && hay[k..k + |needle|] == needle
  }

  /** An occurrence past the first character is an occurrence in the rest,
      one offset earlier. */
  lemma OccursAtShift(hay: string, needle: string, k: int)
    requires |hay| > 0 && k >= 1
    ensures OccursAt(hay, needle, k) <==> OccursAt(hay[1..], needle, k - 1)
  {
    if k + |needle| <= |hay| {
      assert hay[1..][k - 1..k - 1 + |needle|] == hay[k..k + |needle|];
    }
  }

  /** `Includes` holds exactly when `needle` occurs at some offset of `hay`. */
  lemma {:induction false} IncludesIff(hay: string, needle: string)
    ensures Includes(hay, needle) <==> exists k :: OccursAt(hay, needle, k)
    decreases |hay|
  {
    if needle <= hay {
      assert OccursAt(hay, needle, 0);
    } else if |hay| > 0 {
      IncludesIff(hay[1..], needle);
      if exists k :: OccursAt(hay, needle, k) {
        var k :| OccursAt(hay, needle, k);
        OccursAtShift(hay, needle, k);
      }
      if Includes(hay[1..], needle) {
        var k :| OccursAt(hay[1..], needle, k);
        OccursAtShift(hay, needle, k + 1);
      }
    }
  }

  // ---------------------------------------------------------------------
  // join, replace, number formatting, `x || ''`
  // ---------------------------------------------------------------------

  /** `xs.join(sep)`. */
  function Join(xs: seq<string>, sep: string): string
  {
    if |xs| == 0 then ""
    else if |xs| == 1 then xs[0]
    else xs[0] + sep + Join(xs[1..], sep)
  }

  /** Joining one more element appends the separator and that element. */
  lemma {:induction false} JoinSnoc(xs: seq<string>, x: string, sep: string)
    requires |xs| > 0
    ensures Join(xs + [x], sep) == Join(xs, sep) + sep + x
  {
    if |xs| == 1 {
      assert (xs + [x])[1..] == [x];
    } else {
      assert (xs + [x])[1..] == xs[1..] + [x];
      JoinSnoc(xs[1..], x, sep);
    }
  }

  /** `s.replace(/"/g, '""')`: every double quote doubled. */
  function DoubleQuotes(s: string): string
  {
    if s == [] then []
    else (if s[0] == '"' then "\"\"" else [s[0]]) + DoubleQuotes(s[1..])
  }

  /** Doubling quotes distributes over concatenation. */
  lemma {:induction false} DoubleQuotesConcat(a: string, b: string)
    ensures DoubleQuotes(a + b) == DoubleQuotes(a) + DoubleQuotes(b)
  {
    if a != [] {
      assert (a + b)[1..] == a[1..] + b;
      DoubleQuotesConcat(a[1..], b);
    } else {
      assert a + b == b;
    }
  }

  function DigitChar(d: nat): char
    requires d < 10
  {
    ('0' as int + d) as char
  }

  /** The number a string of decimal digits denotes, read left to right;
      the reference `Digits` is checked against. */
  function DecimalValue(s: string): int
  {
    if s == [] then 0 else DecimalValue(s[..|s| - 1]) * 10 + (s[|s| - 1] as int - '0' as int)
  }

  /** The decimal form of a natural number, most significant digit first:
      digits only, no leading zero, and it reads back as the number. */
  function Digits(n: nat): (r: string)
    ensures |r| > 0
    ensures forall i :: 0 <= i < |r| ==> '0' <= r[i] <= '9'
    ensures r[0] == '0' ==> n == 0 && |r| == 1
    ensures DecimalValue(r) == n
  {
    if n < 10 then [DigitChar(n)]
    else
      var r := Digits(n / 10) + [DigitChar(n % 10)];
      assert r[..|r| - 1] == Digits(n / 10);
      r
  }

  /** `String(n)` for an integer `n`: a minus sign exactly for a negative
      number, then the decimal form of its magnitude, with digits only and
      no leading zero. */
  function NumberToString(n: int): (r: string)
    ensures |r| > 0
    ensures (r[0] == '-') <==> n < 0
    ensures var o := if n < 0 then 1 else 0;
      |r| > o && forall i :: o <= i < |r| ==> '0' <= r[i] <= '9'
    ensures var o := if n < 0 then 1 else 0;
      |r| > o && (r[o] == '0' ==> n == 0 && |r| == 1)
    ensures n < 0 ==> DecimalValue(r[1..]) == -n
    ensures n >= 0 ==> DecimalValue(r) == n
  {
    if n < 0 then
      var r := "-" + Digits(-n);
      assert r[1..] == Digits(-n);
      r
    else Digits(n)
  }

  /** `s || ''` for a string that may be `null` or `undefined`. */
  function OrEmpty(s: Option<string>): string
  {
    OrDefault(s, "")
  }

  /** `s || d` for a string that may be `null` or `undefined`: a present,
      non-empty string is kept; a missing one and the empty string, which is
      falsy, give way to `d`. */
  function OrDefault(s: Option<string>, d: string): (r: string)
    ensures s.Some? && s.value != "" ==> r == s.value
    ensures s.None? || s.value == "" ==> r == d
  {
    if s.Some? && s.value != "" then s.value else d
  }

  /** `n || 0` for a count that may be missing. */
  function CountOrZero(n: Option<int>): int
  {
    if n.Some? then n.value else 0
  }

  /** `n || ''` for an integer that may be missing: zero is falsy too. */
  function NumberOrEmpty(n: Option<int>): string
  {
    if n.Some? && n.value != 0 then NumberToString(n.value) else ""
  }
}
