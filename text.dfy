/**
 * The string operations the application applies to file names and HTML text,
 * with the JavaScript semantics the source relies on:
 * `endsWith`, `String.prototype.replace` with a string pattern (first
 * occurrence only), `includes`, number-to-decimal in template strings,
 * `trim`, and the case-insensitive suffix regex `/\.html?$/i`.
 */
module Text {
  import opened Wrappers

  predicate EndsWith(s: string, suffix: string) {
    |suffix| <= |s| && s[|s| - |suffix|..] == suffix
  }

  /** `pat` occurs in `s` starting at index `i`. */
  predicate OccursAt(s: string, pat: string, i: nat) {
    i + |pat| <= |s| && s[i..i + |pat|] == pat
  }

  /** The least index at or after `from` where `pat` occurs (JavaScript `indexOf(pat, from)`). */
  function IndexOfFrom(s: string, pat: string, from: nat): (r: Option<nat>)
    ensures r.Some? ==> from <= r.value && OccursAt(s, pat, r.value)
    ensures r.Some? ==> forall j :: from <= j < r.value ==> !OccursAt(s, pat, j)
    ensures r.None? ==> forall j :: from <= j ==> !OccursAt(s, pat, j)
    decreases |s| - from
  {
    if from + |pat| > |s| then None
    else if OccursAt(s, pat, from) then Some(from)
    else IndexOfFrom(s, pat, from + 1)
  }

  function IndexOf(s: string, pat: string): Option<nat> {
    IndexOfFrom(s, pat, 0)
  }

  /** JavaScript `s.includes(pat)`. */
  predicate Contains(s: string, pat: string) {
    IndexOf(s, pat).Some?
  }

  /**
   * JavaScript `s.replace(pat, rep)` with a string pattern: only the FIRST
   * occurrence is replaced; without an occurrence the string is unchanged.
   */
  function ReplaceFirst(s: string, pat: string, rep: string): (r: string)
    ensures (forall j: nat :: !OccursAt(s, pat, j)) ==> r == s
    ensures forall i: nat :: OccursAt(s, pat, i) && (forall j: nat :: j < i ==> !OccursAt(s, pat, j)) ==>
                        r == s[..i] + rep + s[i + |pat|..]
  {
    match IndexOf(s, pat)
    case None => s
    case Some(i) => s[..i] + rep + s[i + |pat|..]
  }

  /** Replacing ".pdf" never touches a name that does not contain it. */
  lemma ReplaceFirstAbsent(s: string, pat: string, rep: string)
    requires !Contains(s, pat)
    ensures ReplaceFirst(s, pat, rep) == s
  {
  }

  /**
   * ".pdf" cannot overlap itself, so in `base + ".pdf"` with no ".pdf"
   * inside `base` the first occurrence is the suffix, and removing it gives
   * back `base`.
   */
  lemma {:induction false} StripPdfSuffix(base: string)
    requires !Contains(base, ".pdf")
    ensures ReplaceFirst(base + ".pdf", ".pdf", "") == base
  {
    var s := base + ".pdf";
    assert OccursAt(s, ".pdf", |base|);
    forall j: nat | j < |base|
      ensures !OccursAt(s, ".pdf", j)
    {
      if j + 4 <= |base| {
        assert s[j..j + 4] == base[j..j + 4];
        assert !OccursAt(base, ".pdf", j);
      } else {
        // a match straddling the end of base would need the suffix's '.' to be a letter of "pdf"
        var m := |base| - j;
        var window := s[j..j + 4];
        assert window[m] == s[|base|] == '.';
        assert ".pdf"[m] != '.';
      }
    }
    match IndexOf(s, ".pdf")
    case None =>
    case Some(i) =>
      assert i == |base|;
      assert s[..i] == base;
  }

  // ----- decimal rendering of a page number, as `${n}` in a template string -----

  function DigitChar(d: nat): (c: char)
    requires d < 10
    ensures '0' <= c <= '9' && (c as int) - ('0' as int) == d
  {
    (('0' as int) + d) as char
  }

  predicate IsDigits(s: string) {
    forall k :: 0 <= k < |s| ==> '0' <= s[k] <= '9'
  }

  /** `${n}` for a natural number: its decimal digits, with no leading zero. */
  function Decimal(n: nat): (r: string)
    ensures |r| >= 1 && IsDigits(r)
    ensures r[0] == '0' <==> n == 0
    ensures n == 0 ==> r == "0"
  {
    if n < 10 then [DigitChar(n)] else Decimal(n / 10) + [DigitChar(n % 10)]
  }

  /** Reads a string of decimal digits back as a number. */
  function DecimalValue(s: string): nat
    requires IsDigits(s)
  {
    if s == [] then 0
    else DecimalValue(s[..|s| - 1]) * 10 + ((s[|s| - 1] as int) - ('0' as int))
  }

  lemma {:induction false} DecimalRoundTrip(n: nat)
    ensures DecimalValue(Decimal(n)) == n
  {
    if n >= 10 {
      DecimalRoundTrip(n / 10);
      var s := Decimal(n);
      assert s[..|s| - 1] == Decimal(n / 10);
    }
  }

  /** Different numbers are written differently. */
  lemma DecimalInjective(m: nat, n: nat)
    requires Decimal(m) == Decimal(n)
    ensures m == n
  {
    DecimalRoundTrip(m);
    DecimalRoundTrip(n);
  }

  // ----- String.prototype.trim -----

  /**
   * The characters ECMAScript's `trim` removes: WhiteSpace (tab, vertical
   * tab, form feed, space, no-break space, zero width no-break space and the
   * Unicode space separators) and LineTerminator (line feed, carriage return,
   * line and paragraph separators).
   */
  predicate IsJsWhitespace(c: char) {
    c == '\t' || c == '\n' || c == '\U{000B}' || c == '\U{000C}' || c == '\r' || c == ' '
    || c == '\U{00A0}' || c == '\U{1680}' || ('\U{2000}' <= c <= '\U{200A}')
    || c == '\U{2028}' || c == '\U{2029}' || c == '\U{202F}' || c == '\U{205F}'
    || c == '\U{3000}' || c == '\U{FEFF}'
  }

  function TrimStart(s: string): (r: string)
    ensures |r| <= |s| && r == s[|s| - |r|..]
    ensures r != [] ==> !IsJsWhitespace(r[0])
  {
    if s != [] && IsJsWhitespace(s[0]) then TrimStart(s[1..]) else s
  }

  function TrimEnd(s: string): (r: string)
    ensures |r| <= |s| && r == s[..|r|]
    ensures r != [] ==> !IsJsWhitespace(r[|r| - 1])
  {
    if s != [] && IsJsWhitespace(s[|s| - 1]) then TrimEnd(s[..|s| - 1]) else s
  }

  function Trim(s: string): string {
    TrimEnd(TrimStart(s))
  }

  predicate IsBlank(s: string) {
    forall k :: 0 <= k < |s| ==> IsJsWhitespace(s[k])
  }

  lemma {:induction false} TrimStartBlank(s: string)
    ensures TrimStart(s) == [] <==> IsBlank(s)
  {
    if s != [] && IsJsWhitespace(s[0]) {
      TrimStartBlank(s[1..]);
      if IsBlank(s[1..]) {
        forall k | 0 <= k < |s| ensures IsJsWhitespace(s[k]) {
          if k > 0 { assert s[k] == s[1..][k - 1]; }
        }
      }
      if IsBlank(s) {
        forall k | 0 <= k < |s| - 1 ensures IsJsWhitespace(s[1..][k]) {
          assert s[1..][k] == s[k + 1];
        }
      }
    }
  }

  /** `!s.trim()` holds exactly when every character of `s` is whitespace. */
  lemma TrimEmptyIffBlank(s: string)
    ensures Trim(s) == [] <==> IsBlank(s)
  {
    TrimStartBlank(s);
    var t := TrimStart(s);
    if t != [] {
      assert TrimEnd(t) != [] by {
        assert !IsJsWhitespace(t[0]);
        TrimEndKeepsHead(t);
      }
    }
  }

  lemma {:induction false} TrimEndKeepsHead(t: string)
    requires t != [] && !IsJsWhitespace(t[0])
    ensures TrimEnd(t) != []
  {
    if IsJsWhitespace(t[|t| - 1]) {
      assert |t| > 1;
      TrimEndKeepsHead(t[..|t| - 1]);
    }
  }

  // ----- the regular expression /\.html?$/i -----

  /** Case folding for the ASCII letters; the pattern's letters fold only among themselves. */
  function LowerAscii(c: char): (r: char)
    ensures ('A' <= c <= 'Z') ==> r as int == c as int + 32
    ensures !('A' <= c <= 'Z') ==> r == c
  {
    if 'A' <= c <= 'Z' then ((c as int) + 32) as char else c
  }

  /** `s` ends with `suffix` (written in lower case) ignoring the case of ASCII letters. */
  predicate EndsWithIgnoreCase(s: string, suffix: string) {
    |suffix| <= |s| && forall k :: 0 <= k < |suffix| ==> LowerAscii(s[|s| - |suffix| + k]) == suffix[k]
  }

  /**
   * `s.replace(/\.html?$/i, ".pdf")`: a final ".html" or ".htm", in any case,
   * becomes ".pdf"; anything else is left alone. Only one match is possible,
   * at the end of the string, and ".html" is tried before ".htm" because the
   * regex's `l?` is greedy.
   */
  function ReplaceHtmlExtension(s: string): (r: string)
    ensures EndsWithIgnoreCase(s, ".html") ==> r == s[..|s| - 5] + ".pdf"
    ensures !EndsWithIgnoreCase(s, ".html") && EndsWithIgnoreCase(s, ".htm") ==> r == s[..|s| - 4] + ".pdf"
    ensures (EndsWithIgnoreCase(s, ".html") || EndsWithIgnoreCase(s, ".htm")) ==> EndsWith(r, ".pdf")
    ensures !EndsWithIgnoreCase(s, ".html") && !EndsWithIgnoreCase(s, ".htm") ==> r == s
  {
    if EndsWithIgnoreCase(s, ".html") then s[..|s| - 5] + ".pdf"
    else if EndsWithIgnoreCase(s, ".htm") then s[..|s| - 4] + ".pdf"
    else s
  }
}
