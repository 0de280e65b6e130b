/** The header loop of Client::parse_response(): the raw cURL result is cut
    with strtok on "\n"; the first token is the status line, the following
    ones are header lines up to the first whitespace-only (or "0") line, and
    what strtok("") returns afterwards is the body. */
module HeaderParser {
  import opened Results
  import opened PhpStrings
  import opened PhpArrays

  /** A parsed header: one value, or the list a repeated name builds. */
  datatype HeaderValue = One(value: string) | Many(values: seq<string>)

  type Headers = Dict<string, HeaderValue>

  /** trim(strtolower(str_replace('-', '_', $key))). */
  function NormalizeKey(raw: string): string {
    Trim(Lower(DashToUnderscore(raw)))
  }

  /** A key as NormalizeKey leaves it: no '-', no upper-case ASCII letter, no
      trim character at either end. */
  predicate IsNormalKey(k: string) {
    (forall i :: 0 <= i < |k| ==> k[i] != '-' && !IsUpperAscii(k[i])) &&
    (|k| > 0 ==> !IsTrimChar(k[0]) && !IsTrimChar(k[|k| - 1]))
  }

  lemma NormalizeKeyIsNormal(raw: string)
    ensures IsNormalKey(NormalizeKey(raw))
  {
    var s := Lower(DashToUnderscore(raw));
    var a := LeadingTrim(s, 0);
    var b := TrailingTrim(s, a, |s|);
    var k := NormalizeKey(raw);
    assert k == s[a..b];
    forall i | 0 <= i < |k| ensures k[i] != '-' && !IsUpperAscii(k[i]) {
      assert k[i] == s[a + i];
    }
  }

  /** list($key, $value) = explode(':', $line, 2): split at the first colon;
      without a colon the value is null, which trim() turns into "". */
  function SplitLine(line: string): (string, string) {
    match StrPos(line, ':')
    case None => (line, "")
    case Some(i) => (line[..i], line[i + 1..])
  }

  /** One assignment of the loop body: a first occurrence (or one whose stored
      value is empty(), i.e. "" or "0") stores the value, a second makes a
      two-element list, later ones append. */
  function Step(prev: Option<HeaderValue>, v: string): HeaderValue {
    match prev
    case None => One(v)
    case Some(One(x)) => if Truthy(x) then Many([x, v]) else One(v)
    case Some(Many(xs)) => Many(xs + [v])
  }

  function AddHeader(h: Headers, k: string, v: string): Headers {
    Assign(h, k, Step(Lookup(h, k), v))
  }

  /** The key and the value a header line is stored under. */
  function LineKey(line: string): string {
    NormalizeKey(SplitLine(line).0)
  }

  function LineValue(line: string): string {
    Trim(SplitLine(line).1)
  }

  /** The loop body for one header line. */
  function AddLine(h: Headers, line: string): Headers {
    AddHeader(h, LineKey(line), LineValue(line))
  }

  /** The loop stops at a line that is falsy ("0") or trims to nothing. */
  predicate EndsHeaders(line: string) {
    line == "0" || Trim(line) == ""
  }

  /** The loop from saved strtok position pos with headers h so far; returns
      the headers and the body. */
  function ParseFrom(s: string, pos: nat, h: Headers): (Headers, string)
    decreases |s| + 1 - pos
  {
    match Strtok(s, pos)
    case None => (h, "")
    case Some((line, next)) =>
      if EndsHeaders(line) then (h, StrtokRest(s, next))
      else ParseFrom(s, next, AddLine(h, line))
  }

  /** parse_response() on the raw result: skip the status line, then loop.
      The body is empty or a proper tail of s. */
  function ParseBlock(s: string): (r: (Headers, string))
    ensures r.1 == "" || (|r.1| < |s| && IsTailOf(r.1, s))
  {
    match Strtok(s, 0)
    case None => ([], "")
    case Some((_, next)) =>
      ParseFromTail(s, next, []);
      ParseFrom(s, next, [])
  }

  /** The header loop of parse_response(), updating the header array line by
      line. */
  method ParseHeaderBlock(s: string) returns (headers: Headers, body: string)
    ensures (headers, body) == ParseBlock(s)
  {
    headers := [];
    body := "";
    var status := Strtok(s, 0);
    if status.None? {
      return;
    }
    var pos := status.value.1;
    while true
      invariant ParseFrom(s, pos, headers) == ParseBlock(s)
      decreases |s| + 1 - pos
    {
      var tok := Strtok(s, pos);
      if tok.None? {
        body := "";
        return;
      }
      var line := tok.value.0;
      if EndsHeaders(line) {
        body := StrtokRest(s, tok.value.1);
        return;
      }
      var (rawKey, rawValue) := SplitLine(line);
      var key := NormalizeKey(rawKey);
      var value := Trim(rawValue);
      var existing := Lookup(headers, key);
      if existing.None? || (existing.value.One? && !Truthy(existing.value.value)) {
        headers := Assign(headers, key, One(value));
      } else if existing.value.Many? {
        headers := Assign(headers, key, Many(existing.value.values + [value]));
      } else {
        headers := Assign(headers, key, Many([existing.value.value, value]));
      }
      pos := tok.value.1;
    }
  }

  // ---------------------------------------------------------------------------
  // A reference view: the tokens strtok produces, and a fold over the lines.

  /** Every token strtok(..., "\n") yields from position pos on. */
  function Tokens(s: string, pos: nat): seq<string>
    decreases |s| + 1 - pos
  {
    match Strtok(s, pos)
    case None => []
    case Some((t, next)) => [t] + Tokens(s, next)
  }

  /** The header lines: the tokens before the first one that ends the loop. */
  function HeaderBlockLines(lines: seq<string>): seq<string> {
    if lines == [] || EndsHeaders(lines[0]) then [] else [lines[0]] + HeaderBlockLines(lines[1..])
  }

  function FoldLines(h: Headers, lines: seq<string>): Headers
    decreases |lines|
  {
    if lines == [] then h else FoldLines(AddLine(h, lines[0]), lines[1..])
  }

  /** Strtok tokens are non-empty runs without a newline. */
  lemma {:induction false} TokensAreLines(s: string, pos: nat)
    ensures forall i :: 0 <= i < |Tokens(s, pos)| ==>
      |Tokens(s, pos)[i]| > 0 && '\n' !in Tokens(s, pos)[i]
    decreases |s| + 1 - pos
  {
    match Strtok(s, pos)
    case None =>
    case Some((t, next)) =>
      TokensAreLines(s, next);
  }

  /** The loop folds exactly the header lines: the tokens up to the first
      whitespace-only line, nothing after it. */
  lemma {:induction false} ParseFromFolds(s: string, pos: nat, h: Headers)
    ensures ParseFrom(s, pos, h).0 == FoldLines(h, HeaderBlockLines(Tokens(s, pos)))
    decreases |s| + 1 - pos
  {
    var t := Strtok(s, pos);
    if t.Some? {
      var line, next := t.value.0, t.value.1;
      var rest := Tokens(s, next);
      var ts := [line] + rest;
      assert Tokens(s, pos) == ts;
      if !EndsHeaders(line) {
        var h' := AddLine(h, line);
        ParseFromFolds(s, next, h');
        assert ParseFrom(s, pos, h) == ParseFrom(s, next, h');
        assert ts[1..] == rest;
        var lines := HeaderBlockLines(rest);
        assert HeaderBlockLines(ts) == [line] + lines;
        assert ([line] + lines)[1..] == lines;
        assert FoldLines(h, [line] + lines) == FoldLines(h', lines);
      }
    }
  }

  // ---------------------------------------------------------------------------
  // The body: what strtok("") returns once the header block has ended.

  /** Header lines as they appear in the raw result, each ended by "\n". */
  function LinesText(lines: seq<string>): string
    decreases |lines|
  {
    if lines == [] then "" else lines[0] + "\n" + LinesText(lines[1..])
  }

  /** A run of non-newline characters that ends at a newline is one token. */
  lemma {:induction false} TokenEndAt(s: string, i: nat, j: nat)
    requires i <= j < |s| && s[j] == '\n'
    requires forall k :: i <= k < j ==> s[k] != '\n'
    ensures TokenEnd(s, i) == j
    decreases j - i
  {
    if i < j {
      TokenEndAt(s, i + 1, j);
    }
  }

  /** strtok returns a line followed by its newline whole, and resumes just
      after the newline. */
  lemma StrtokLine(s: string, pos: nat, line: string, rest: string)
    requires |line| > 0 && '\n' !in line
    requires pos <= |s| && s[pos..] == line + "\n" + rest
    ensures Strtok(s, pos) == Some((line, pos + |line| + 1))
    ensures s[pos + |line| + 1..] == rest
  {
    var e := pos + |line|;
    assert s[pos] == line[0];
    assert SkipNewlines(s, pos) == pos;
    forall k | pos <= k < e ensures s[k] != '\n' {
      assert s[k] == s[pos..][k - pos] == line[k - pos];
    }
    assert s[e] == s[pos..][|line|] == '\n';
    TokenEndAt(s, pos, e);
    assert s[pos..e] == s[pos..][..|line|] == line;
    assert s[e + 1..] == s[pos..][|line| + 1..] == rest;
  }

  /** A header line of the raw result: a strtok token that does not end the
      block. */
  predicate IsHeaderLine(line: string) {
    |line| > 0 && '\n' !in line && !EndsHeaders(line)
  }

  /** Every line of lines is a header line. */
  predicate AllHeaderLines(lines: seq<string>)
    decreases |lines|
  {
    lines == [] || (IsHeaderLine(lines[0]) && AllHeaderLines(lines[1..]))
  }

  lemma {:induction false} AllHeaderLinesEach(lines: seq<string>)
    requires forall i :: 0 <= i < |lines| ==> IsHeaderLine(lines[i])
    ensures AllHeaderLines(lines)
    decreases |lines|
  {
    if lines != [] {
      assert IsHeaderLine(lines[0]);
      forall i | 0 <= i < |lines[1..]| ensures IsHeaderLine(lines[1..][i]) {
        assert lines[1..][i] == lines[i + 1];
      }
      AllHeaderLinesEach(lines[1..]);
    }
  }

  /** A strtok token that ends the block. */
  predicate IsEndLine(line: string) {
    |line| > 0 && '\n' !in line && EndsHeaders(line)
  }

  /** The body the loop leaves behind from position pos, whatever headers it
      has collected. */
  function BodyFrom(s: string, pos: nat): string
    decreases |s| + 1 - pos
  {
    match Strtok(s, pos)
    case None => ""
    case Some((line, next)) =>
      if EndsHeaders(line) then StrtokRest(s, next) else BodyFrom(s, next)
  }

  /** The headers collected so far do not affect the body. */
  lemma {:induction false} ParseFromBody(s: string, pos: nat, h: Headers)
    ensures ParseFrom(s, pos, h).1 == BodyFrom(s, pos)
    decreases |s| + 1 - pos
  {
    match Strtok(s, pos)
    case None =>
    case Some((line, next)) =>
      if !EndsHeaders(line) {
        ParseFromBody(s, next, AddLine(h, line));
      }
  }

  /** t is the text at the end of s. */
  predicate IsTailOf(t: string, s: string) {
    |t| <= |s| && t == s[|s| - |t|..]
  }

  /** The body is empty or the text of s after some position past pos. */
  lemma {:induction false} BodyFromTail(s: string, pos: nat)
    ensures BodyFrom(s, pos) == "" || (pos + |BodyFrom(s, pos)| < |s| && IsTailOf(BodyFrom(s, pos), s))
    decreases |s| + 1 - pos
  {
    match Strtok(s, pos)
    case None =>
    case Some((line, next)) =>
      if !EndsHeaders(line) {
        BodyFromTail(s, next);
      } else if next < |s| {
        assert |s| - |s[next..]| == next;
      }
  }

  /** The body the loop leaves is empty or the text of s after some position
      past pos. */
  lemma ParseFromTail(s: string, pos: nat, h: Headers)
    ensures var b := ParseFrom(s, pos, h).1;
      b == "" || (pos + |b| < |s| && IsTailOf(b, s))
  {
    ParseFromBody(s, pos, h);
    BodyFromTail(s, pos);
  }

  /** One step of Tokens and of BodyFrom. */
  lemma TokensUnfold(s: string, pos: nat, line: string, next: nat)
    requires Strtok(s, pos) == Some((line, next))
    ensures Tokens(s, pos) == [line] + Tokens(s, next)
    ensures BodyFrom(s, pos) == if EndsHeaders(line) then StrtokRest(s, next) else BodyFrom(s, next)
  {
  }

  lemma TokensNone(s: string, pos: nat)
    requires Strtok(s, pos).None?
    ensures Tokens(s, pos) == [] && BodyFrom(s, pos) == ""
  {
  }

  /** Tokens and the body only look at the text from the saved position on. */
  lemma {:induction false} TokensShift(s: string, pos: nat, p: nat)
    requires pos <= p && pos <= |s|
    ensures Tokens(s, p) == Tokens(s[pos..], p - pos)
    decreases |s| + 1 - p
  {
    var u := s[pos..];
    StrtokShift(s, pos, p);
    if Strtok(s, p).Some? {
      var t, next := Strtok(s, p).value.0, Strtok(s, p).value.1;
      TokensUnfold(s, p, t, next);
      TokensUnfold(u, p - pos, t, next - pos);
      TokensShift(s, pos, next);
    } else {
      TokensNone(s, p);
      TokensNone(u, p - pos);
    }
  }

  lemma {:induction false} BodyFromShift(s: string, pos: nat, p: nat)
    requires pos <= p && pos <= |s|
    ensures BodyFrom(s, p) == BodyFrom(s[pos..], p - pos)
    decreases |s| + 1 - p
  {
    var u := s[pos..];
    StrtokShift(s, pos, p);
    if Strtok(s, p).Some? {
      var line, next := Strtok(s, p).value.0, Strtok(s, p).value.1;
      TokensUnfold(s, p, line, next);
      TokensUnfold(u, p - pos, line, next - pos);
      if EndsHeaders(line) {
        StrtokRestShift(s, pos, next - pos);
      } else {
        BodyFromShift(s, pos, next);
      }
    } else {
      TokensNone(s, p);
      TokensNone(u, p - pos);
    }
  }

  /** A header line at the front of the text is passed over: the body is the
      one the rest of the text leaves. */
  lemma BodyFromLine(t: string, line: string, rest: string)
    requires IsHeaderLine(line) && t == line + "\n" + rest
    ensures BodyFrom(t, 0) == BodyFrom(rest, 0)
  {
    assert t[0..] == t;
    StrtokLine(t, 0, line, rest);
    TokensUnfold(t, 0, line, |line| + 1);
    BodyFromShift(t, |line| + 1, |line| + 1);
  }

  /** A line that ends the block at the front of the text: the body is what
      follows its newline. */
  lemma BodyFromEndLine(t: string, end: string, body: string)
    requires IsEndLine(end) && t == end + "\n" + body
    ensures BodyFrom(t, 0) == body
  {
    assert t[0..] == t;
    StrtokLine(t, 0, end, body);
    TokensUnfold(t, 0, end, |end| + 1);
    if |end| + 1 == |t| {
      assert body == t[|end| + 1..] == "";
    }
  }

  /** A header line at the front of the text is the first header line. */
  lemma TokensLine(t: string, line: string, rest: string)
    requires IsHeaderLine(line) && t == line + "\n" + rest
    ensures HeaderBlockLines(Tokens(t, 0)) == [line] + HeaderBlockLines(Tokens(rest, 0))
  {
    assert t[0..] == t;
    StrtokLine(t, 0, line, rest);
    TokensCons(t, 0, line, |line| + 1);
    TokensShift(t, |line| + 1, |line| + 1);
  }

  /** A line that ends the block at the front of the text leaves no header
      lines. */
  lemma TokensEndLine(t: string, end: string, body: string)
    requires IsEndLine(end) && t == end + "\n" + body
    ensures HeaderBlockLines(Tokens(t, 0)) == []
  {
    assert t[0..] == t;
    StrtokLine(t, 0, end, body);
    TokensEnd(t, 0, end, |end| + 1);
  }

  /** Header lines, each ended by "\n", then a line that ends the block, then
      the body: what the loop leaves is the body. */
  lemma {:induction false} LayoutBody(lines: seq<string>, end: string, body: string)
    requires AllHeaderLines(lines) && IsEndLine(end)
    ensures BodyFrom(LinesText(lines) + (end + "\n" + body), 0) == body
    decreases |lines|
  {
    var tail := end + "\n" + body;
    if lines == [] {
      assert LinesText(lines) + tail == tail;
      BodyFromEndLine(tail, end, body);
    } else {
      LinesTextCons(lines, tail);
      BodyFromLine(LinesText(lines) + tail, lines[0], LinesText(lines[1..]) + tail);
      LayoutBody(lines[1..], end, body);
    }
  }

  /** In the same layout, the header lines strtok yields are exactly lines. */
  lemma {:induction false} LayoutLines(lines: seq<string>, end: string, body: string)
    requires AllHeaderLines(lines) && IsEndLine(end)
    ensures HeaderBlockLines(Tokens(LinesText(lines) + (end + "\n" + body), 0)) == lines
    decreases |lines|
  {
    var tail := end + "\n" + body;
    if lines == [] {
      assert LinesText(lines) + tail == tail;
      TokensEndLine(tail, end, body);
    } else {
      var t, rest := LinesText(lines) + tail, LinesText(lines[1..]) + tail;
      LinesTextCons(lines, tail);
      TokensLine(t, lines[0], rest);
      LayoutLines(lines[1..], end, body);
      SeqCons(lines);
    }
  }

  lemma SeqCons<T>(xs: seq<T>)
    requires xs != []
    ensures [xs[0]] + xs[1..] == xs
  {
  }

  /** A token that does not end the block is the first header line. */
  lemma TokensCons(s: string, pos: nat, line: string, next: nat)
    requires Strtok(s, pos) == Some((line, next)) && IsHeaderLine(line)
    ensures HeaderBlockLines(Tokens(s, pos)) == [line] + HeaderBlockLines(Tokens(s, next))
  {
    var ts := Tokens(s, pos);
    assert ts == [line] + Tokens(s, next);
    assert ts[1..] == Tokens(s, next);
  }

  /** A token that ends the block leaves no header lines. */
  lemma TokensEnd(s: string, pos: nat, line: string, next: nat)
    requires Strtok(s, pos) == Some((line, next)) && IsEndLine(line)
    ensures HeaderBlockLines(Tokens(s, pos)) == []
  {
    assert Tokens(s, pos)[0] == line;
  }

  lemma LinesTextCons(lines: seq<string>, tail: string)
    requires lines != []
    ensures LinesText(lines) + tail == lines[0] + "\n" + (LinesText(lines[1..]) + tail)
  {
  }

  /** parse_response() on a raw result laid out as a status line, header
      lines, a line that ends the block, and a body: the headers are the fold
      of the header lines and the body is the text after the ending line. */
  lemma ParseBlockLayout(s: string, status: string, lines: seq<string>, end: string, body: string)
    requires |status| > 0 && '\n' !in status
    requires forall i :: 0 <= i < |lines| ==> IsHeaderLine(lines[i])
    requires IsEndLine(end)
    requires s == status + "\n" + LinesText(lines) + end + "\n" + body
    ensures ParseBlock(s) == (FoldLines([], lines), body)
  {
    Regroup(status, "\n", LinesText(lines), end, "\n", body);
    assert s[0..] == s;
    StrtokLine(s, 0, status, LinesText(lines) + (end + "\n" + body));
    ParseBlockStart(s, status, |status| + 1);
    AllHeaderLinesEach(lines);
    var rest := LinesText(lines) + (end + "\n" + body);
    assert s[|status| + 1..] == rest;
    LayoutLines(lines, end, body);
    LayoutBody(lines, end, body);
    TokensShift(s, |status| + 1, |status| + 1);
    BodyFromShift(s, |status| + 1, |status| + 1);
    ParseFromFolds(s, |status| + 1, []);
    ParseFromBody(s, |status| + 1, []);
  }

  lemma Regroup(a: string, b: string, c: string, d: string, e: string, f: string)
    ensures a + b + c + d + e + f == a + b + (c + (d + e + f))
  {
  }

  /** parse_response() reads the status line, then runs the loop. */
  lemma ParseBlockStart(s: string, status: string, next: nat)
    requires Strtok(s, 0) == Some((status, next))
    ensures ParseBlock(s) == ParseFrom(s, next, [])
  {
  }

  /** Without a line that ends the block, every token is a header line and
      the body is empty (strtok("") has nothing left). */
  lemma {:induction false} ParseFromNoEnd(s: string, pos: nat, h: Headers)
    requires forall i :: 0 <= i < |Tokens(s, pos)| ==> !EndsHeaders(Tokens(s, pos)[i])
    ensures ParseFrom(s, pos, h).1 == ""
    decreases |s| + 1 - pos
  {
    match Strtok(s, pos)
    case None =>
    case Some((t, next)) =>
      assert Tokens(s, pos)[0] == t;
      forall i | 0 <= i < |Tokens(s, next)| ensures !EndsHeaders(Tokens(s, next)[i]) {
        assert Tokens(s, next)[i] == Tokens(s, pos)[i + 1];
      }
      ParseFromNoEnd(s, next, AddLine(h, t));
  }

  /** The first token is the status line and is never read as a header. */
  lemma StatusLineSkipped(s: string)
    ensures ParseBlock(s).0 ==
      if Tokens(s, 0) == [] then [] else FoldLines([], HeaderBlockLines(Tokens(s, 0)[1..]))
  {
    match Strtok(s, 0)
    case None =>
    case Some((_, next)) =>
      ParseFromFolds(s, next, []);
      assert Tokens(s, 0)[1..] == Tokens(s, next);
  }

  // ---------------------------------------------------------------------------
  // What the fold stores under one key.

  /** The trimmed values of the lines whose normalised key is k, in order. */
  function ValuesFor(lines: seq<string>, k: string): seq<string>
    decreases |lines|
  {
    if lines == [] then []
    else (if LineKey(lines[0]) == k then [LineValue(lines[0])] else []) + ValuesFor(lines[1..], k)
  }

  /** The assignments the loop makes to one key, starting from prev. */
  function StepAll(prev: Option<HeaderValue>, vals: seq<string>): Option<HeaderValue>
    decreases |vals|
  {
    if vals == [] then prev else StepAll(Some(Step(prev, vals[0])), vals[1..])
  }

  lemma StepAllSnoc(prev: Option<HeaderValue>, vals: seq<string>, v: string)
    ensures StepAll(prev, vals + [v]) == Some(Step(StepAll(prev, vals), v))
    decreases |vals|
  {
    if vals == [] {
      assert [] + [v] == [v];
    } else {
      assert (vals + [v])[1..] == vals[1..] + [v];
      StepAllSnoc(Some(Step(prev, vals[0])), vals[1..], v);
    }
  }

  /** Keys do not interfere: what is stored under k depends only on k's own
      values, in the order they occur. */
  lemma {:induction false} FoldLinesLookup(h: Headers, lines: seq<string>, k: string)
    ensures Lookup(FoldLines(h, lines), k) == StepAll(Lookup(h, k), ValuesFor(lines, k))
    decreases |lines|
  {
    if lines != [] {
      var key, v := LineKey(lines[0]), LineValue(lines[0]);
      var h' := AddLine(h, lines[0]);
      var rest := ValuesFor(lines[1..], k);
      AssignLookup(h, key, Step(Lookup(h, key), v), k);
      FoldLinesLookup(h', lines[1..], k);
      assert FoldLines(h, lines) == FoldLines(h', lines[1..]);
      if key == k {
        var vals := [v] + rest;
        assert ValuesFor(lines, k) == vals;
        assert vals[0] == v && vals[1..] == rest;
        assert StepAll(Lookup(h, k), vals) == StepAll(Some(Step(Lookup(h, k), v)), rest);
      } else {
        assert ValuesFor(lines, k) == [] + rest == rest;
      }
    }
  }

  /** With every value truthy, one occurrence stores the value, and two or
      more store the list of all of them in order. */
  lemma {:induction false} StepAllShape(prev: Option<HeaderValue>, vals: seq<string>)
    requires forall i :: 0 <= i < |vals| ==> Truthy(vals[i])
    requires prev.None? || (prev.value.One? && Truthy(prev.value.value)) || prev.value.Many?
    ensures prev.None? ==>
      StepAll(prev, vals) ==
        (if vals == [] then None else if |vals| == 1 then Some(One(vals[0])) else Some(Many(vals)))
    ensures prev.Some? && prev.value.One? && vals != [] ==>
      StepAll(prev, vals) == Some(Many([prev.value.value] + vals))
    ensures prev.Some? && prev.value.Many? ==>
      StepAll(prev, vals) == Some(Many(prev.value.values + vals))
    decreases |vals|
  {
    if vals != [] {
      var v0, tail := vals[0], vals[1..];
      assert vals == [v0] + tail;
      var next := Step(prev, v0);
      assert StepAll(prev, vals) == StepAll(Some(next), tail);
      StepAllShape(Some(next), tail);
      if prev.None? {
        assert next == One(v0);
      } else if prev.value.One? {
        var x := prev.value.value;
        assert next == Many([x, v0]);
        assert [x, v0] + tail == [x] + vals;
      } else {
        var xs := prev.value.values;
        assert next == Many(xs + [v0]);
        assert (xs + [v0]) + tail == xs + vals;
      }
    } else if prev.Some? && prev.value.Many? {
      assert prev.value.values + vals == prev.value.values;
    }
  }

  /** The header array for a block of lines whose values are truthy: a name
      seen once maps to its value, a name seen n >= 2 times to the list of
      its n values in order, and an unseen name is absent. */
  lemma RepeatedHeadersFold(lines: seq<string>, k: string)
    requires forall i :: 0 <= i < |ValuesFor(lines, k)| ==> Truthy(ValuesFor(lines, k)[i])
    ensures var vals := ValuesFor(lines, k);
      Lookup(FoldLines([], lines), k) ==
        if vals == [] then None else if |vals| == 1 then Some(One(vals[0])) else Some(Many(vals))
  {
    FoldLinesLookup([], lines, k);
    StepAllShape(None, ValuesFor(lines, k));
  }

  /** Every key the loop stores is normalised, and no key is stored twice. */
  lemma {:induction false} FoldLinesKeys(h: Headers, lines: seq<string>)
    requires UniqueKeys(h) && forall i :: 0 <= i < |Keys(h)| ==> IsNormalKey(Keys(h)[i])
    ensures var r := FoldLines(h, lines);
      UniqueKeys(r) && forall i :: 0 <= i < |Keys(r)| ==> IsNormalKey(Keys(r)[i])
    decreases |lines|
  {
    if lines != [] {
      NormalizeKeyIsNormal(SplitLine(lines[0]).0);
      var h' := AddLine(h, lines[0]);
      assert forall i :: 0 <= i < |Keys(h')| ==> IsNormalKey(Keys(h')[i]) by {
        forall i | 0 <= i < |Keys(h')| ensures IsNormalKey(Keys(h')[i]) {
          if i >= |Keys(h)| {
            assert Keys(h')[i] == LineKey(lines[0]);
          } else {
            assert Keys(h')[i] == Keys(h)[i];
          }
        }
      }
      FoldLinesKeys(h', lines[1..]);
    }
  }

  /** The quirk of the empty() check: a first value "" (or "0") is replaced,
      not turned into a list, by the next occurrence. */
  lemma EmptyValueIsReplaced(h: Headers, k: string, v: string)
    requires Lookup(h, k) == Some(One("")) || Lookup(h, k) == Some(One("0"))
    ensures Lookup(AddHeader(h, k, v), k) == Some(One(v))
  {
  }
}
