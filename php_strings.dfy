/** The PHP string built-ins the client relies on. PHP strings are byte
    strings; in this model each char stands for one byte. */
module PhpStrings {
  import opened Results

  /** PHP's empty() and boolean conversion of a string: "" and "0" are false. */
  predicate Truthy(s: string) {
    s != "" && s != "0"
  }

  /** Truthiness of an option that may hold null. */
  predicate TruthyOpt(o: Option<string>) {
    o.Some? && Truthy(o.value)
  }

  // ---------------------------------------------------------------------------
  // trim()

  /** The characters trim() strips by default: space, \t, \n, \r, \0 and \x0B. */
  predicate IsTrimChar(c: char) {
    c == ' ' || c == '\t' || c == '\n' || c == '\r' || c == '\0' || c as int == 11
  }

  /** The first position at or after i that does not hold a trim character. */
  function LeadingTrim(s: string, i: nat): (j: nat)
    requires i <= |s|
    ensures i <= j <= |s|
    ensures forall k :: i <= k < j ==> IsTrimChar(s[k])
    ensures j < |s| ==> !IsTrimChar(s[j])
    decreases |s| - i
  {
    if i < |s| && IsTrimChar(s[i]) then LeadingTrim(s, i + 1) else i
  }

  /** The end of s[lo..j] once its trailing trim characters are dropped. */
  function TrailingTrim(s: string, lo: nat, j: nat): (e: nat)
    requires lo <= j <= |s|
    ensures lo <= e <= j
    ensures forall k :: e <= k < j ==> IsTrimChar(s[k])
    ensures e > lo ==> !IsTrimChar(s[e - 1])
    decreases j
  {
    if j > lo && IsTrimChar(s[j - 1]) then TrailingTrim(s, lo, j - 1) else j
  }

  /** trim(): the slice of s left once both runs of trim characters are
      dropped; it is empty exactly when s holds trim characters only. */
  function Trim(s: string): (r: string)
    ensures |r| > 0 ==> !IsTrimChar(r[0]) && !IsTrimChar(r[|r| - 1])
    ensures r == "" <==> forall k :: 0 <= k < |s| ==> IsTrimChar(s[k])
    ensures exists a, b :: (0 <= a <= b <= |s| && r == s[a..b] &&
      (forall k :: 0 <= k < a ==> IsTrimChar(s[k])) &&
      (forall k :: b <= k < |s| ==> IsTrimChar(s[k])))
  {
    var a := LeadingTrim(s, 0);
    var b := TrailingTrim(s, a, |s|);
    assert forall k :: b <= k < |s| ==> IsTrimChar(s[k]);
    s[a..b]
  }

  // ---------------------------------------------------------------------------
  // strtolower(), strtoupper(), str_replace('-', '_', ...)

  predicate IsUpperAscii(c: char) { 'A' <= c <= 'Z' }
  predicate IsLowerAscii(c: char) { 'a' <= c <= 'z' }

  function LowerChar(c: char): char {
    if IsUpperAscii(c) then (c as int + 32) as char else c
  }

  function UpperChar(c: char): char {
    if IsLowerAscii(c) then (c as int - 32) as char else c
  }

  /** strtolower() on ASCII letters. */
  function Lower(s: string): string {
    seq(|s|, i requires 0 <= i < |s| => LowerChar(s[i]))
  }

  /** strtoupper() on ASCII letters. */
  function Upper(s: string): string {
    seq(|s|, i requires 0 <= i < |s| => UpperChar(s[i]))
  }

  /** str_replace('-', '_', s). */
  function DashToUnderscore(s: string): string {
    seq(|s|, i requires 0 <= i < |s| => if s[i] == '-' then '_' else s[i])
  }

  // ---------------------------------------------------------------------------
  // strpos($s, $c) for a single character

  /** strpos(): the index of the first occurrence of c, or None for PHP's false. */
  function StrPos(s: string, c: char): (r: Option<nat>)
    ensures r.None? <==> c !in s
    ensures r.Some? ==> r.value < |s| && s[r.value] == c
    ensures r.Some? ==> forall j :: 0 <= j < r.value ==> s[j] != c
  {
    if s == [] then None
    else if s[0] == c then Some(0)
    else match StrPos(s[1..], c)
      case None => None
      case Some(i) => Some(i + 1)
  }

  // ---------------------------------------------------------------------------
  // strtok($s, "\n") and strtok("")

  /** The first position at or after i that does not hold a newline. */
  function SkipNewlines(s: string, i: nat): (j: nat)
    requires i <= |s|
    ensures i <= j <= |s|
    ensures j < |s| ==> s[j] != '\n'
    decreases |s| - i
  {
    if i < |s| && s[i] == '\n' then SkipNewlines(s, i + 1) else i
  }

  /** The first position at or after i that holds a newline, or |s|. */
  function TokenEnd(s: string, i: nat): (j: nat)
    requires i <= |s|
    ensures i <= j <= |s|
    ensures j < |s| ==> s[j] == '\n'
    decreases |s| - i
  {
    if i < |s| && s[i] != '\n' then TokenEnd(s, i + 1) else i
  }

  /** Everything SkipNewlines passes over is a newline. */
  lemma {:induction false} SkipNewlinesSkips(s: string, i: nat)
    requires i <= |s|
    ensures forall k :: i <= k < SkipNewlines(s, i) ==> s[k] == '\n'
    decreases |s| - i
  {
    if i < |s| && s[i] == '\n' {
      SkipNewlinesSkips(s, i + 1);
    }
  }

  /** Nothing TokenEnd passes over is a newline. */
  lemma {:induction false} TokenEndSpans(s: string, i: nat)
    requires i <= |s|
    ensures forall k :: i <= k < TokenEnd(s, i) ==> s[k] != '\n'
    decreases |s| - i
  {
    if i < |s| && s[i] != '\n' {
      TokenEndSpans(s, i + 1);
    }
  }

  /** t is the text of s from i up to the newline at next - 1 (or up to the
      end when next - 1 == |s|), and only newlines lie between pos and i. */
  predicate TokenFrom(s: string, pos: nat, i: nat, t: string, next: nat) {
    pos <= i < next <= |s| + 1 &&
    (forall k :: pos <= k < i ==> s[k] == '\n') &&
    t == s[i..next - 1] &&
    (next - 1 == |s| || s[next - 1] == '\n')
  }

  /** One call of strtok(..., "\n") whose saved position is pos: leading
      newlines are skipped, the token runs to the next newline, and the saved
      position moves past that newline. None is PHP's false (nothing left). */
  function Strtok(s: string, pos: nat): (r: Option<(string, nat)>)
    ensures r.Some? ==> pos < r.value.1 <= |s| + 1
    ensures r.Some? ==> |r.value.0| > 0 && '\n' !in r.value.0
  {
    if pos >= |s| then None
    else
      var i := SkipNewlines(s, pos);
      if i == |s| then None
      else
        var j := TokenEnd(s, i);
        TokenEndSpans(s, i);
        assert forall k :: 0 <= k < j - i ==> s[i..j][k] == s[i + k];
        Some((s[i..j], j + 1))
  }

  /** What strtok returns: false exactly when only newlines are left, and
      otherwise the text after the skipped newlines up to the next newline. */
  lemma StrtokToken(s: string, pos: nat)
    ensures Strtok(s, pos).None? <==> forall k :: pos <= k < |s| ==> s[k] == '\n'
    ensures Strtok(s, pos).Some? ==>
      exists i :: TokenFrom(s, pos, i, Strtok(s, pos).value.0, Strtok(s, pos).value.1)
    ensures Strtok(s, pos).Some? ==> '\n' !in Strtok(s, pos).value.0
  {
    if pos < |s| {
      var i := SkipNewlines(s, pos);
      SkipNewlinesSkips(s, pos);
      if i < |s| {
        var j := TokenEnd(s, i);
        TokenEndSpans(s, i);
        assert forall k :: 0 <= k < j - i ==> s[i..j][k] == s[i + k];
        assert TokenFrom(s, pos, i, s[i..j], j + 1);
      }
    }
  }

  // strtok() only looks at the text from its saved position on.

  lemma {:induction false} SkipNewlinesShift(s: string, pos: nat, i: nat)
    requires pos <= i <= |s|
    ensures SkipNewlines(s, i) == pos + SkipNewlines(s[pos..], i - pos)
    decreases |s| - i
  {
    if i < |s| {
      assert s[pos..][i - pos] == s[i];
      if s[i] == '\n' {
        SkipNewlinesShift(s, pos, i + 1);
      }
    }
  }

  lemma {:induction false} TokenEndShift(s: string, pos: nat, i: nat)
    requires pos <= i <= |s|
    ensures TokenEnd(s, i) == pos + TokenEnd(s[pos..], i - pos)
    decreases |s| - i
  {
    if i < |s| {
      assert s[pos..][i - pos] == s[i];
      if s[i] != '\n' {
        TokenEndShift(s, pos, i + 1);
      }
    }
  }

  /** Reading from position p of s is reading from p - pos of s[pos..]. */
  lemma StrtokShift(s: string, pos: nat, p: nat)
    requires pos <= p && pos <= |s|
    ensures Strtok(s, p).None? <==> Strtok(s[pos..], p - pos).None?
    ensures Strtok(s, p).Some? ==>
      Strtok(s[pos..], p - pos) == Some((Strtok(s, p).value.0, Strtok(s, p).value.1 - pos))
  {
    if p < |s| {
      SkipNewlinesShift(s, pos, p);
      var i := SkipNewlines(s, p);
      if i < |s| {
        TokenEndShift(s, pos, i);
        var j := TokenEnd(s, i);
        forall k | 0 <= k < j - i ensures s[pos..][i - pos..j - pos][k] == s[i..j][k] {
          assert s[pos..][i - pos + k] == s[i + k];
        }
        assert s[pos..][i - pos..j - pos] == s[i..j];
      }
    }
  }

  lemma StrtokRestShift(s: string, pos: nat, n: nat)
    requires pos <= |s|
    ensures StrtokRest(s, pos + n) == StrtokRest(s[pos..], n)
  {
    if pos + n < |s| {
      assert s[pos + n..] == s[pos..][n..];
    }
  }

  /** strtok(""): the rest of the string after the saved position; PHP's false
      (nothing left) is represented by "". */
  function StrtokRest(s: string, pos: nat): string {
    if pos >= |s| then "" else s[pos..]
  }

  // ---------------------------------------------------------------------------
  // urlencode() and urldecode()

  predicate IsAlnumAscii(c: char) {
    IsUpperAscii(c) || IsLowerAscii(c) || '0' <= c <= '9'
  }

  /** Characters urlencode() copies unchanged. */
  predicate IsUnreserved(c: char) {
    IsAlnumAscii(c) || c == '-' || c == '_' || c == '.'
  }

  /** The upper-case hex digit of n, as urlencode() writes it. */
  function HexDigit(n: nat): (c: char)
    requires n < 16
    ensures IsHexDigit(c) && HexValue(c) == n
  {
    if n < 10 then ('0' as int + n) as char else ('A' as int + n - 10) as char
  }

  predicate IsHexDigit(c: char) {
    '0' <= c <= '9' || 'A' <= c <= 'F' || 'a' <= c <= 'f'
  }

  function HexValue(c: char): (n: nat)
    requires IsHexDigit(c)
    ensures n < 16
  {
    if '0' <= c <= '9' then c as int - '0' as int
    else if 'A' <= c <= 'F' then c as int - 'A' as int + 10
    else c as int - 'a' as int + 10
  }

  /** urlencode() of one byte: unreserved characters stay, a space becomes
      '+', anything else becomes '%' and two upper-case hex digits. */
  function UrlEncodeChar(c: char): string {
    if IsUnreserved(c) then [c]
    else if c == ' ' then "+"
    else
      var b := c as int % 256;
      ['%', HexDigit(b / 16), HexDigit(b % 16)]
  }

  /** urlencode(): form-style percent-encoding of every byte. */
  function UrlEncode(s: string): string {
    if s == [] then [] else UrlEncodeChar(s[0]) + UrlEncode(s[1..])
  }

  /** urldecode(): '+' becomes a space and "%XY" with two hex digits becomes
      that byte; every other character is copied. */
  function UrlDecode(s: string): string {
    if s == [] then []
    else if s[0] == '+' then [' '] + UrlDecode(s[1..])
    else if s[0] == '%' && |s| >= 3 && IsHexDigit(s[1]) && IsHexDigit(s[2]) then
      [(HexValue(s[1]) * 16 + HexValue(s[2])) as char] + UrlDecode(s[3..])
    else [s[0]] + UrlDecode(s[1..])
  }

  /** Every string of bytes. */
  predicate IsByteString(s: string) {
    forall k :: 0 <= k < |s| ==> s[k] as int < 256
  }

  /** urlencode() never produces the separators '&' and '='. */
  lemma {:induction false} UrlEncodeHasNoSeparators(s: string)
    ensures '&' !in UrlEncode(s) && '=' !in UrlEncode(s)
  {
    if s != [] {
      UrlEncodeHasNoSeparators(s[1..]);
      assert UrlEncode(s) == UrlEncodeChar(s[0]) + UrlEncode(s[1..]);
    }
  }

  /** urldecode() reads back one "%XY" escape. */
  lemma UrlDecodeOfEscape(hi: nat, lo: nat, rest: string)
    requires hi < 16 && lo < 16
    ensures UrlDecode(['%', HexDigit(hi), HexDigit(lo)] + rest) == [(hi * 16 + lo) as char] + UrlDecode(rest)
  {
    var e := ['%', HexDigit(hi), HexDigit(lo)] + rest;
    assert e[0] == '%' && e[1] == HexDigit(hi) && e[2] == HexDigit(lo);
    assert e[3..] == rest;
  }

  lemma UrlDecodeOfEncodedChar(c: char, rest: string)
    requires c as int < 256
    ensures UrlDecode(UrlEncodeChar(c) + rest) == [c] + UrlDecode(rest)
  {
    var e := UrlEncodeChar(c) + rest;
    if IsUnreserved(c) {
      assert e[0] == c && e[1..] == rest;
    } else if c == ' ' {
      assert e[0] == '+' && e[1..] == rest;
    } else {
      var b := c as int;
      assert b % 256 == b;
      UrlDecodeOfEscape(b / 16, b % 16, rest);
      assert (b / 16 * 16 + b % 16) as char == c;
    }
  }

  /** urldecode() inverts urlencode() on byte strings. */
  lemma {:induction false} UrlDecodeEncode(s: string)
    requires IsByteString(s)
    ensures UrlDecode(UrlEncode(s)) == s
  {
    if s != [] {
      UrlDecodeOfEncodedChar(s[0], UrlEncode(s[1..]));
      UrlDecodeEncode(s[1..]);
      assert [s[0]] + s[1..] == s;
    }
  }

  /** The length of s once its trailing run of c is dropped. */
  function TrailingRun(s: string, c: char, j: nat): (e: nat)
    requires j <= |s|
    ensures e <= j
    ensures forall k :: e <= k < j ==> s[k] == c
    ensures e > 0 ==> s[e - 1] != c
  {
    if j > 0 && s[j - 1] == c then TrailingRun(s, c, j - 1) else j
  }

  /** rtrim($s, $c) for a single character c. */
  function RTrimChar(s: string, c: char): string {
    s[..TrailingRun(s, c, |s|)]
  }
}
