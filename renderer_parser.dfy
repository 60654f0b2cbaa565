/** The renderer's own line-based reader of `.http` text: it cuts the source at
    `###` lines, recognises request lines, `@name=value` variables and
    `# @key value` magic types, and separates headers from the body at the
    first blank line after the request line. */
module RendererParser {
  import opened Wrappers
  import opened Strings

  // ---------------------------------------------------------------------------
  // REQUEST_LINE_REGEX
  // ---------------------------------------------------------------------------

  const Methods: set<String> := {"GET", "POST", "PUT", "PATCH", "DELETE", "OPTIONS", "HEAD", "CONNECT", "TRACE"}

  const Versions: set<String> := {"HTTP/1.0", "HTTP/1.1", "HTTP/2.0"}

  /** The version assumed when a request line names none. */
  const DefaultVersion: String := "HTTP/1.1"

  datatype RequestLine = RequestLine(httpMethod: String, url: String, httpVersion: String)

  /** A URL as `(\S+)` takes it: at least one character, none of them
      whitespace. */
  predicate IsUrl(u: String) {
    u != [] && NoSpace(u)
  }

  /** A whole line against `METHOD SP URL [SP VERSION]`. The method is followed
      by the first space; the URL runs to the end of the line, or to one space
      and a version that ends the line. */
  function MatchRequestLine(line: String): (r: Option<RequestLine>)
    ensures r.Some? ==> r.value.httpMethod in Methods && IsUrl(r.value.url) && r.value.httpVersion in Versions
  {
    var m := FirstIndex(line, ' ');
    if m < |line| && line[..m] in Methods then
      var rest := line[m + 1..];
      if IsUrl(rest) then Some(RequestLine(line[..m], rest, DefaultVersion))
      else
        var u := FirstIndex(rest, ' ');
        if 0 < u < |rest| && NoSpace(rest[..u]) && rest[u + 1..] in Versions then
          Some(RequestLine(line[..m], rest[..u], rest[u + 1..]))
        else None
    else None
  }

  /** A text cut around one of its characters. */
  lemma CutAt(s: String, i: nat)
    requires i < |s|
    ensures s == s[..i] + [s[i]] + s[i + 1..]
  {
  }

  /** A recognised line is made of exactly the parts it gave, with a version
      or with none and `HTTP/1.1` assumed. */
  lemma MatchRequestLineShape(line: String)
    requires MatchRequestLine(line).Some?
    ensures var r := MatchRequestLine(line).value;
      line == r.httpMethod + " " + r.url + " " + r.httpVersion ||
      (r.httpVersion == DefaultVersion && line == r.httpMethod + " " + r.url)
  {
    var r := MatchRequestLine(line).value;
    var m := FirstIndex(line, ' ');
    var rest := line[m + 1..];
    CutAt(line, m);
    assert [line[m]] == " ";
    if IsUrl(rest) {
      assert r == RequestLine(line[..m], rest, DefaultVersion);
      assert line == r.httpMethod + " " + r.url;
    } else {
      var u := FirstIndex(rest, ' ');
      CutAt(rest, u);
      assert [rest[u]] == " ";
      assert r == RequestLine(line[..m], rest[..u], rest[u + 1..]);
      Regroup(line[..m], rest[..u], rest[u + 1..]);
      assert line == r.httpMethod + " " + r.url + " " + r.httpVersion;
    }
  }

  lemma Regroup(a: String, b: String, c: String)
    ensures a + " " + (b + " " + c) == a + " " + b + " " + c
  {
  }

  /** Every well-formed request line is recognised, with the parts it was made
      of; without a version it gets `HTTP/1.1`. */
  lemma MatchRequestLineOf(m: String, u: String, v: String)
    requires m in Methods && IsUrl(u) && v in Versions
    ensures MatchRequestLine(m + " " + u + " " + v) == Some(RequestLine(m, u, v))
    ensures MatchRequestLine(m + " " + u) == Some(RequestLine(m, u, DefaultVersion))
  {
    MatchVersioned(m, u, v);
    MatchUnversioned(m, u);
  }

  lemma MatchVersioned(m: String, u: String, v: String)
    requires m in Methods && IsUrl(u) && v in Versions
    ensures MatchRequestLine(m + " " + u + " " + v) == Some(RequestLine(m, u, v))
  {
    var rest := u + " " + v;
    MethodHasNoSpace(m);
    UrlHasNoSpace(u);
    Regroup(m, u, v);
    SpaceCut(m, rest);
    SpaceCut(u, v);
    assert rest[|u|] == ' ';
  }

  lemma MatchUnversioned(m: String, u: String)
    requires m in Methods && IsUrl(u)
    ensures MatchRequestLine(m + " " + u) == Some(RequestLine(m, u, DefaultVersion))
  {
    MethodHasNoSpace(m);
    SpaceCut(m, u);
  }

  lemma MethodHasNoSpace(m: String)
    requires m in Methods
    ensures ' ' !in m
  {
  }

  lemma UrlHasNoSpace(u: String)
    requires IsUrl(u)
    ensures ' ' !in u
  {
  }

  /** A text cut at the first space, when the part before it has none. */
  lemma SpaceCut(a: String, b: String)
    requires ' ' !in a
    ensures FirstIndex(a + " " + b, ' ') == |a|
    ensures (a + " " + b)[..|a|] == a && (a + " " + b)[|a| + 1..] == b
  {
    assert a + " " + b == a + [' '] + b;
    FirstIndexAfter(a, ' ', b);
  }

  /** The result of a loop that keeps the last line a matcher accepts. */
  function LastMatch<T>(lines: seq<String>, matcher: String -> Option<T>): Option<T>
    decreases |lines|
  {
    if lines == [] then None
    else match matcher(lines[|lines| - 1])
      case Some(r) => Some(r)
      case None => LastMatch(lines[..|lines| - 1], matcher)
  }

  /** `getRequestLineFromBlock`'s result as a function of the lines: the last
      line that is a request line decides. */
  function LastRequestLine(lines: seq<String>): Option<RequestLine> {
    LastMatch(lines, MatchRequestLine)
  }

  method GetRequestLineFromBlock(block: String) returns (result: Option<RequestLine>)
    ensures result == LastRequestLine(Split(block, '\n'))
  {
    var lines := Split(block, '\n');
    result := None;
    for i := 0 to |lines|
      invariant result == LastRequestLine(lines[..i])
    {
      assert lines[..i + 1][..i] == lines[..i];
      var m := MatchRequestLine(lines[i]);
      if m.Some? {
        result := m;
      }
    }
    assert lines[..|lines|] == lines;
  }

  /** Something is kept exactly when some line is accepted. */
  lemma {:induction false} LastMatchFound<T>(lines: seq<String>, matcher: String -> Option<T>)
    ensures LastMatch(lines, matcher).None? <==> forall i :: 0 <= i < |lines| ==> matcher(lines[i]).None?
    decreases |lines|
  {
    if lines != [] {
      var init := lines[..|lines| - 1];
      LastMatchFound(init, matcher);
      assert forall i :: 0 <= i < |init| ==> init[i] == lines[i];
    }
  }

  /** What is kept comes from an accepted line that no accepted line follows. */
  lemma {:induction false} LastMatchIsLast<T>(lines: seq<String>, matcher: String -> Option<T>)
    requires LastMatch(lines, matcher).Some?
    ensures exists i :: (0 <= i < |lines| && matcher(lines[i]) == LastMatch(lines, matcher) &&
      forall j :: i < j < |lines| ==> matcher(lines[j]).None?)
    decreases |lines|
  {
    var n := |lines| - 1;
    if matcher(lines[n]).Some? {
      assert matcher(lines[n]) == LastMatch(lines, matcher);
    } else {
      var init := lines[..n];
      LastMatchIsLast(init, matcher);
      var i :| 0 <= i < |init| && matcher(init[i]) == LastMatch(init, matcher) &&
        forall j :: i < j < |init| ==> matcher(init[j]).None?;
      assert lines[i] == init[i];
      assert forall j :: i < j < |lines| ==> matcher(lines[j]).None? by {
        forall j | i < j < |lines| ensures matcher(lines[j]).None? {
          if j < n { assert lines[j] == init[j]; }
        }
      }
    }
  }

  /** A block has a request line exactly when one of its lines is one, and the
      one taken is followed by no other. */
  lemma LastRequestLineSpec(lines: seq<String>)
    ensures LastRequestLine(lines).None? <==> forall i :: 0 <= i < |lines| ==> MatchRequestLine(lines[i]).None?
    ensures LastRequestLine(lines).Some? ==>
      exists i :: (0 <= i < |lines| && MatchRequestLine(lines[i]) == LastRequestLine(lines) &&
        forall j :: i < j < |lines| ==> MatchRequestLine(lines[j]).None?)
  {
    LastMatchFound(lines, MatchRequestLine);
    if LastRequestLine(lines).Some? {
      LastMatchIsLast(lines, MatchRequestLine);
    }
  }

  // ---------------------------------------------------------------------------
  // VARIABLE_REGEX and MAGIC_TYPE_REGEX
  // ---------------------------------------------------------------------------

  /** The end of the run of `\w` characters that starts at `i`. */
  function WordEnd(s: String, i: nat): (j: nat)
    requires i <= |s|
    ensures i <= j <= |s|
    ensures forall k :: i <= k < j ==> IsWordChar(s[k])
    ensures j < |s| ==> !IsWordChar(s[j])
    decreases |s| - i
  {
    if i < |s| && IsWordChar(s[i]) then WordEnd(s, i + 1) else i
  }

  lemma {:induction false} WordEndIs(s: String, i: nat, j: nat)
    requires i <= j <= |s|
    requires forall k :: i <= k < j ==> IsWordChar(s[k])
    requires j < |s| ==> !IsWordChar(s[j])
    ensures WordEnd(s, i) == j
    decreases j - i
  {
    if i < j {
      WordEndIs(s, i + 1, j);
    }
  }

  /** `(\w+)`: one or more word characters. */
  predicate IsWord(s: String) {
    s != [] && forall k :: 0 <= k < |s| ==> IsWordChar(s[k])
  }

  /** `(.*)$` without the multiline flag: no line terminator anywhere. */
  predicate OnOneLine(s: String) {
    forall k :: 0 <= k < |s| ==> !IsLineTerminator(s[k])
  }

  /** A whole line against `^prefix(\w+)sep(.*)$`: the name and the rest. */
  function MatchNamed(line: String, prefix: String, sep: char): (r: Option<(String, String)>)
    ensures r.Some? ==> IsWord(r.value.0) && OnOneLine(r.value.1) && line == prefix + r.value.0 + [sep] + r.value.1
  {
    if StartsWith(line, prefix) then
      var j := WordEnd(line, |prefix|);
      if |prefix| < j < |line| && line[j] == sep && OnOneLine(line[j + 1..]) then
        assert line == line[..|prefix|] + line[|prefix|..j] + [sep] + line[j + 1..];
        Some((line[|prefix|..j], line[j + 1..]))
      else None
    else None
  }

  /** Every line of that shape is recognised, with its name and value. */
  lemma MatchNamedOf(prefix: String, sep: char, name: String, value: String)
    requires !IsWordChar(sep) && IsWord(name) && OnOneLine(value)
    ensures MatchNamed(prefix + name + [sep] + value, prefix, sep) == Some((name, value))
  {
    var line := prefix + name + [sep] + value;
    var j := |prefix| + |name|;
    assert line[..|prefix|] == prefix;
    assert line[|prefix|..j] == name;
    assert line[j] == sep;
    assert line[j + 1..] == value;
    WordEndIs(line, |prefix|, j);
  }

  /** `VARIABLE_REGEX`: `@name=value`. */
  function MatchVariable(line: String): Option<(String, String)> {
    MatchNamed(line, "@", '=')
  }

  /** `getMagicType`: `# @key value`. */
  function GetMagicType(line: String): Option<(String, String)> {
    MatchNamed(line, "# @", ' ')
  }

  // ---------------------------------------------------------------------------
  // getVariablesFromDocument and getMagicTypes
  // ---------------------------------------------------------------------------

  predicate Names(r: Option<(String, String)>, k: String) {
    r.Some? && r.value.0 == k
  }

  /** The dictionary a loop over the lines fills: each recognised line sets its
      name, later lines overwriting earlier ones. */
  function LastWins(lines: seq<String>, matcher: String -> Option<(String, String)>): map<String, String>
    decreases |lines|
  {
    if lines == [] then map[]
    else
      var m := LastWins(lines[..|lines| - 1], matcher);
      match matcher(lines[|lines| - 1])
      case Some(binding) => m[binding.0 := binding.1]
      case None => m
  }

  /** A name is in the dictionary exactly when some line sets it. */
  lemma {:induction false} LastWinsDomain(lines: seq<String>, matcher: String -> Option<(String, String)>, k: String)
    ensures k !in LastWins(lines, matcher) <==> forall i :: 0 <= i < |lines| ==> !Names(matcher(lines[i]), k)
    decreases |lines|
  {
    if lines != [] {
      var init := lines[..|lines| - 1];
      LastWinsDomain(init, matcher, k);
      assert forall i :: 0 <= i < |init| ==> init[i] == lines[i];
    }
  }

  /** Line `i` names `k` and no later line does. */
  predicate LastNaming(lines: seq<String>, matcher: String -> Option<(String, String)>, k: String, i: nat) {
    i < |lines| && Names(matcher(lines[i]), k) && forall j :: i < j < |lines| ==> !Names(matcher(lines[j]), k)
  }

  /** The value of a name in the dictionary is the one set by the last line
      that names it. */
  lemma {:induction false} LastWinsValue(lines: seq<String>, matcher: String -> Option<(String, String)>, k: String)
    requires k in LastWins(lines, matcher)
    ensures exists i: nat :: LastNaming(lines, matcher, k, i) && LastWins(lines, matcher)[k] == matcher(lines[i]).value.1
    decreases |lines|
  {
    var last := |lines| - 1;
    if Names(matcher(lines[last]), k) {
      assert LastNaming(lines, matcher, k, last);
    } else {
      var init := lines[..last];
      LastWinsValue(init, matcher, k);
      var i: nat :| LastNaming(init, matcher, k, i) && LastWins(init, matcher)[k] == matcher(init[i]).value.1;
      assert init[i] == lines[i];
      forall j | i < j < |lines| ensures !Names(matcher(lines[j]), k) {
        if j < last {
          assert init[j] == lines[j];
        }
      }
      assert LastNaming(lines, matcher, k, i);
    }
  }

  method GetVariablesFromDocument(document: String) returns (variables: map<String, String>)
    ensures variables == LastWins(Split(document, '\n'), MatchVariable)
  {
    var lines := Split(document, '\n');
    variables := map[];
    for i := 0 to |lines|
      invariant variables == LastWins(lines[..i], MatchVariable)
    {
      assert lines[..i + 1][..i] == lines[..i];
      var m := MatchVariable(lines[i]);
      if m.Some? {
        variables := variables[m.value.0 := m.value.1];
      }
    }
    assert lines[..|lines|] == lines;
  }

  method GetMagicTypes(block: String) returns (magicTypes: map<String, String>)
    ensures magicTypes == LastWins(Split(block, '\n'), GetMagicType)
  {
    var lines := Split(block, '\n');
    magicTypes := map[];
    for i := 0 to |lines|
      invariant magicTypes == LastWins(lines[..i], GetMagicType)
    {
      assert lines[..i + 1][..i] == lines[..i];
      var m := GetMagicType(lines[i]);
      if m.Some? {
        magicTypes := magicTypes[m.value.0 := m.value.1];
      }
    }
    assert lines[..|lines|] == lines;
  }

  // ---------------------------------------------------------------------------
  // getHeadersAndBody
  // ---------------------------------------------------------------------------

  datatype HeadersAndBody = HeadersAndBody(headers: map<String, String>, body: Option<String>)

  /** The loop's state: the two flags, the headers so far and the body so far. */
  datatype Scan = Scan(requestLineFound: bool, bodyStarted: bool, headers: map<String, String>, body: Option<String>)

  const InitialScan: Scan := Scan(false, false, map[], None)

  /** The line cut at its colons, first two pieces trimmed; without a colon
      `value` is undefined and trimming it throws. */
  function HeaderEntry(line: String): Option<(String, String)> {
    var parts := Split(line, ':');
    if |parts| < 2 then None else Some((Trim(parts[0]), Trim(parts[1])))
  }

  const UndefinedValue: String := "Cannot read properties of undefined (reading 'trim')"

  /** One turn of the loop: request lines only set the flag; nothing counts
      before the first of them; after the first blank line every line goes to
      the body; before it every line is a header. */
  function ScanLine(st: Scan, line: String): Result<Scan> {
    if MatchRequestLine(line).Some? then Ok(st.(requestLineFound := true))
    else if !st.requestLineFound then Ok(st)
    else if st.bodyStarted then Ok(st.(body := Some((if st.body.None? then "" else st.body.value) + line + "\n")))
    else if Trim(line) == "" then Ok(st.(bodyStarted := true))
    else match HeaderEntry(line)
      case None => Err(UndefinedValue)
      case Some(entry) => Ok(st.(headers := st.headers[entry.0 := entry.1]))
  }

  /** The loop over the lines from state `st`; the first throw ends it. */
  function ScanFrom(st: Scan, lines: seq<String>): Result<Scan>
    decreases |lines|
  {
    if lines == [] then Ok(st)
    else match ScanFrom(st, lines[..|lines| - 1])
      case Err(m) => Err(m)
      case Ok(s) => ScanLine(s, lines[|lines| - 1])
  }

  /** The result: the headers, and the body trimmed when it is non-empty. */
  function HeadersAndBodyOfLines(lines: seq<String>): Result<HeadersAndBody> {
    match ScanFrom(InitialScan, lines)
    case Err(m) => Err(m)
    case Ok(st) => Ok(HeadersAndBody(st.headers, if st.body.Some? && st.body.value != [] then Some(Trim(st.body.value)) else None))
  }

  function HeadersAndBodyOf(block: String): Result<HeadersAndBody> {
    HeadersAndBodyOfLines(Split(block, '\n'))
  }

  lemma {:induction false} ScanErrSticks(st: Scan, lines: seq<String>, i: nat)
    requires i <= |lines| && ScanFrom(st, lines[..i]).Err?
    ensures ScanFrom(st, lines) == ScanFrom(st, lines[..i])
    decreases |lines| - i
  {
    if i < |lines| {
      assert lines[..i + 1][..i] == lines[..i];
      ScanErrSticks(st, lines, i + 1);
    } else {
      assert lines[..i] == lines;
    }
  }

  method GetHeadersAndBody(block: String) returns (r: Result<HeadersAndBody>)
    ensures r == HeadersAndBodyOf(block)
  {
    var lines := Split(block, '\n');
    var headers: map<String, String> := map[];
    var body: Option<String> := None;
    var requestLineFound := false;
    var bodyStarted := false;
    for i := 0 to |lines|
      invariant ScanFrom(InitialScan, lines[..i]) == Ok(Scan(requestLineFound, bodyStarted, headers, body))
    {
      ScanFromNext(InitialScan, lines, i);
      var next := ScanLineStep(requestLineFound, bodyStarted, headers, body, lines[i]);
      if next.Err? {
        ScanErrSticks(InitialScan, lines, i + 1);
        return Err(next.message);
      }
      requestLineFound, bodyStarted, headers, body :=
        next.value.requestLineFound, next.value.bodyStarted, next.value.headers, next.value.body;
    }
    assert lines[..|lines|] == lines;
    if body.Some? && body.value != [] {
      return Ok(HeadersAndBody(headers, Some(Trim(body.value))));
    }
    return Ok(HeadersAndBody(headers, None));
  }

  /** One more line scanned is one more turn of the loop. */
  lemma ScanFromNext(st: Scan, lines: seq<String>, i: nat)
    requires i < |lines|
    ensures ScanFrom(st, lines[..i + 1]) ==
      match ScanFrom(st, lines[..i])
      case Err(m) => Err(m)
      case Ok(s) => ScanLine(s, lines[i])
  {
    assert lines[..i + 1][..i] == lines[..i];
  }

  /** The body of `getHeadersAndBody`'s loop on one line. */
  method ScanLineStep(requestLineFound: bool, bodyStarted: bool, headers: map<String, String>, body: Option<String>, line: String)
    returns (r: Result<Scan>)
    ensures r == ScanLine(Scan(requestLineFound, bodyStarted, headers, body), line)
  {
    var st := Scan(requestLineFound, bodyStarted, headers, body);
    if MatchRequestLine(line).Some? {
      return Ok(st.(requestLineFound := true));
    }
    if !requestLineFound {
      return Ok(st);
    }
    if bodyStarted {
      var b := body;
      if b.None? {
        b := Some("");
      }
      return Ok(st.(body := Some(b.value + line + "\n")));
    }
    if Trim(line) == "" {
      return Ok(st.(bodyStarted := true));
    }
    var parts := Split(line, ':');
    if |parts| < 2 {
      return Err(UndefinedValue);
    }
    return Ok(st.(headers := headers[Trim(parts[0]) := Trim(parts[1])]));
  }

  /** The field split keeps the text before the first colon and the text up to
      the second one; whatever follows a second colon is dropped. */
  lemma HeaderEntryOf(k: String, v: String, rest: String)
    requires ':' !in k && ':' !in v
    ensures HeaderEntry(k + ":" + v) == Some((Trim(k), Trim(v)))
    ensures HeaderEntry(k + ":" + v + ":" + rest) == Some((Trim(k), Trim(v)))
  {
    assert k + ":" + v == k + [':'] + v;
    SplitCons(k, ':', v);
    SplitNone(v, ':');
    assert k + ":" + v + ":" + rest == k + [':'] + (v + [':'] + rest);
    SplitCons(k, ':', v + [':'] + rest);
    SplitCons(v, ':', rest);
  }

  /** A line with no colon has no value to trim. */
  lemma HeaderEntryNeedsColon(line: String)
    ensures HeaderEntry(line).Some? <==> ':' in line
  {
    SplitHead(line, ':');
    if ':' !in line {
      FirstIndexAbsent(line, ':');
    } else {
      assert line[..|line|] == line;
    }
  }

  /** A line of the header region: a request line, which the scan skips, or a
      non-blank line with a colon. */
  predicate HeaderRegionLine(line: String) {
    MatchRequestLine(line).Some? || (Trim(line) != "" && ':' in line)
  }

  /** The lines that are not request lines, in order. */
  function NonRequestLines(lines: seq<String>): (r: seq<String>)
    ensures |r| <= |lines|
    decreases |lines|
  {
    if lines == [] then []
    else if MatchRequestLine(lines[|lines| - 1]).Some? then NonRequestLines(lines[..|lines| - 1])
    else NonRequestLines(lines[..|lines| - 1]) + [lines[|lines| - 1]]
  }

  /** The lines of the body, each followed by a newline. */
  function BodyText(lines: seq<String>): (r: String)
    ensures |r| >= |lines|
    decreases |lines|
  {
    if lines == [] then "" else BodyText(lines[..|lines| - 1]) + lines[|lines| - 1] + "\n"
  }

  lemma {:induction false} ScanFromAppend(st: Scan, a: seq<String>, b: seq<String>)
    ensures ScanFrom(st, a + b) ==
      match ScanFrom(st, a)
      case Err(m) => Err(m)
      case Ok(s) => ScanFrom(s, b)
    decreases |b|
  {
    if b == [] {
      assert a + b == a;
    } else {
      assert (a + b)[..|a + b| - 1] == a + b[..|b| - 1];
      assert (a + b)[|a + b| - 1] == b[|b| - 1];
      ScanFromAppend(st, a, b[..|b| - 1]);
    }
  }

  /** Lines before the first request line change nothing. */
  lemma {:induction false} ScanSkipsPreamble(st: Scan, pre: seq<String>)
    requires !st.requestLineFound
    requires forall i :: 0 <= i < |pre| ==> MatchRequestLine(pre[i]).None?
    ensures ScanFrom(st, pre) == Ok(st)
    decreases |pre|
  {
    if pre != [] {
      ScanSkipsPreamble(st, pre[..|pre| - 1]);
    }
  }

  /** The header region fills the headers, request lines skipped and a later
      key overwriting an earlier one. */
  lemma {:induction false} ScanHeaders(st: Scan, hdrs: seq<String>)
    requires st.requestLineFound && !st.bodyStarted && st.headers == map[]
    requires forall i :: 0 <= i < |hdrs| ==> HeaderRegionLine(hdrs[i])
    ensures ScanFrom(st, hdrs) == Ok(st.(headers := LastWins(NonRequestLines(hdrs), HeaderEntry)))
    decreases |hdrs|
  {
    if hdrs != [] {
      var init, last := hdrs[..|hdrs| - 1], hdrs[|hdrs| - 1];
      ScanHeaders(st, init);
      HeaderEntryNeedsColon(last);
      if MatchRequestLine(last).None? {
        var nr := NonRequestLines(init) + [last];
        assert nr[..|nr| - 1] == NonRequestLines(init) && nr[|nr| - 1] == last;
      }
    }
  }

  /** After the blank line every line that is not a request line is body text;
      request lines are skipped. */
  lemma {:induction false} ScanBody(st: Scan, lines: seq<String>)
    requires st.requestLineFound && st.bodyStarted && st.body.None?
    ensures ScanFrom(st, lines) ==
      Ok(st.(body := if NonRequestLines(lines) == [] then None else Some(BodyText(NonRequestLines(lines)))))
    decreases |lines|
  {
    if lines != [] {
      var init, last := lines[..|lines| - 1], lines[|lines| - 1];
      ScanBody(st, init);
      if MatchRequestLine(last).None? {
        var nr := NonRequestLines(init) + [last];
        assert nr[..|nr| - 1] == NonRequestLines(init) && nr[|nr| - 1] == last;
      }
    }
  }

  /** Every method starts with a capital letter. */
  lemma MethodsStartWithLetter(m: String)
    requires m in Methods
    ensures m != [] && 'A' <= m[0] <= 'Z'
  {
  }

  /** A blank line is never a request line. */
  lemma BlankIsNoRequestLine(line: String)
    requires Trim(line) == ""
    ensures MatchRequestLine(line).None?
  {
    if MatchRequestLine(line).Some? {
      var m := FirstIndex(line, ' ');
      MethodsStartWithLetter(line[..m]);
      assert !IsSpace(line[0]);
      assert TrimStart(line) == line;
      TrimEndCutsSpaces(line);
      assert false;
    }
  }

  /** The scan up to the end of the header region. */
  lemma ScanRequestAndHeaders(pre: seq<String>, rl: String, hdrs: seq<String>)
    requires forall i :: 0 <= i < |pre| ==> MatchRequestLine(pre[i]).None?
    requires MatchRequestLine(rl).Some?
    requires forall i :: 0 <= i < |hdrs| ==> HeaderRegionLine(hdrs[i])
    ensures ScanFrom(InitialScan, pre + [rl] + hdrs) == Ok(Scan(true, false, LastWins(NonRequestLines(hdrs), HeaderEntry), None))
  {
    ScanSkipsPreamble(InitialScan, pre);
    ScanFromAppend(InitialScan, pre, [rl]);
    assert ScanFrom(InitialScan, [rl]) == ScanLine(InitialScan, rl) by {
      assert [rl][..0] == [];
    }
    var afterLine := Scan(true, false, map[], None);
    assert ScanFrom(InitialScan, pre + [rl]) == Ok(afterLine) by {
      assert ScanFrom(InitialScan, pre + [rl]) == ScanFrom(InitialScan, [rl]);
    }
    ScanFromAppend(InitialScan, pre + [rl], hdrs);
    ScanHeaders(afterLine, hdrs);
  }

  /** A block with no blank line after its headers has no body. */
  lemma HeadersOnly(pre: seq<String>, rl: String, hdrs: seq<String>)
    requires forall i :: 0 <= i < |pre| ==> MatchRequestLine(pre[i]).None?
    requires MatchRequestLine(rl).Some?
    requires forall i :: 0 <= i < |hdrs| ==> HeaderRegionLine(hdrs[i])
    ensures HeadersAndBodyOfLines(pre + [rl] + hdrs) == Ok(HeadersAndBody(LastWins(NonRequestLines(hdrs), HeaderEntry), None))
  {
    ScanRequestAndHeaders(pre, rl, hdrs);
    ScanWithoutBody(pre + [rl] + hdrs, Scan(true, false, LastWins(NonRequestLines(hdrs), HeaderEntry), None));
  }

  lemma ScanWithoutBody(lines: seq<String>, st: Scan)
    requires ScanFrom(InitialScan, lines) == Ok(st) && st.body.None?
    ensures HeadersAndBodyOfLines(lines) == Ok(HeadersAndBody(st.headers, None))
  {
  }

  /** The usual shape: lines before the request line are ignored, the lines up
      to the first blank line are the headers, and the body is every later line
      that is not a request line, each followed by a newline, trimmed; there is
      no body when no such line follows the blank line. */
  lemma HeadersThenBody(pre: seq<String>, rl: String, hdrs: seq<String>, blank: String, bodyLines: seq<String>)
    requires forall i :: 0 <= i < |pre| ==> MatchRequestLine(pre[i]).None?
    requires MatchRequestLine(rl).Some?
    requires forall i :: 0 <= i < |hdrs| ==> HeaderRegionLine(hdrs[i])
    requires Trim(blank) == ""
    ensures HeadersAndBodyOfLines(pre + [rl] + hdrs + [blank] + bodyLines) ==
      Ok(HeadersAndBody(LastWins(NonRequestLines(hdrs), HeaderEntry),
        if NonRequestLines(bodyLines) == [] then None else Some(Trim(BodyText(NonRequestLines(bodyLines))))))
  {
    var head := pre + [rl] + hdrs;
    var started := Scan(true, true, LastWins(NonRequestLines(hdrs), HeaderEntry), None);
    ScanThroughBlank(pre, rl, hdrs, blank);
    ScanFromAppend(InitialScan, head + [blank], bodyLines);
    ScanBody(started, bodyLines);
  }

  /** The first blank line after the headers starts the body. */
  lemma ScanThroughBlank(pre: seq<String>, rl: String, hdrs: seq<String>, blank: String)
    requires forall i :: 0 <= i < |pre| ==> MatchRequestLine(pre[i]).None?
    requires MatchRequestLine(rl).Some?
    requires forall i :: 0 <= i < |hdrs| ==> HeaderRegionLine(hdrs[i])
    requires Trim(blank) == ""
    ensures ScanFrom(InitialScan, pre + [rl] + hdrs + [blank]) == Ok(Scan(true, true, LastWins(NonRequestLines(hdrs), HeaderEntry), None))
  {
    var head := pre + [rl] + hdrs;
    var headers := LastWins(NonRequestLines(hdrs), HeaderEntry);
    ScanRequestAndHeaders(pre, rl, hdrs);
    BlankIsNoRequestLine(blank);
    ScanFromAppend(InitialScan, head, [blank]);
    assert [blank][..0] == [];
    assert ScanFrom(Scan(true, false, headers, None), [blank]) == ScanLine(Scan(true, false, headers, None), blank);
  }

  /** A header-region line without a colon makes the whole call throw. */
  lemma HeaderWithoutColon(pre: seq<String>, rl: String, hdrs: seq<String>, bad: String, rest: seq<String>)
    requires forall i :: 0 <= i < |pre| ==> MatchRequestLine(pre[i]).None?
    requires MatchRequestLine(rl).Some?
    requires forall i :: 0 <= i < |hdrs| ==> HeaderRegionLine(hdrs[i])
    requires MatchRequestLine(bad).None? && Trim(bad) != "" && ':' !in bad
    ensures HeadersAndBodyOfLines(pre + [rl] + hdrs + [bad] + rest) == Err(UndefinedValue)
  {
    var head := pre + [rl] + hdrs;
    ScanRequestAndHeaders(pre, rl, hdrs);
    HeaderEntryNeedsColon(bad);
    ScanFromAppend(InitialScan, head, [bad]);
    assert ScanFrom(InitialScan, head + [bad]) == Err(UndefinedValue) by {
      assert [bad][..0] == [];
    }
    ScanFromAppend(InitialScan, head + [bad], rest);
  }

  /** Without a request line there are neither headers nor a body. */
  lemma NoRequestLineNoHeaders(lines: seq<String>)
    requires forall i :: 0 <= i < |lines| ==> MatchRequestLine(lines[i]).None?
    ensures HeadersAndBodyOfLines(lines) == Ok(HeadersAndBody(map[], None))
  {
    ScanSkipsPreamble(InitialScan, lines);
  }

  // ---------------------------------------------------------------------------
  // source.split(BLOCK_DELIMITER_REGEX)
  // ---------------------------------------------------------------------------

  /** `^###` in multiline mode: three hashes at the start of the text or right
      after a line terminator. */
  predicate SeparatorAt(s: String, q: nat) {
    q + 3 <= |s| && s[q..q + 3] == "###" && (q == 0 || IsLineTerminator(s[q - 1]))
  }

  /** Where `(.*)$` stops: the first line terminator from `i`, or the end. */
  function LineEndFrom(s: String, i: nat): (e: nat)
    requires i <= |s|
    ensures i <= e <= |s|
    ensures e < |s| ==> IsLineTerminator(s[e])
    decreases |s| - i
  {
    if i == |s| || IsLineTerminator(s[i]) then i else LineEndFrom(s, i + 1)
  }

  /** What `(.*)` captures holds no line terminator. */
  lemma {:induction false} LineEndFromOneLine(s: String, i: nat)
    requires i <= |s|
    ensures OnOneLine(s[i..LineEndFrom(s, i)])
    decreases |s| - i
  {
    if i < |s| && !IsLineTerminator(s[i]) {
      var e := LineEndFrom(s, i + 1);
      LineEndFromOneLine(s, i + 1);
      assert s[i..e] == [s[i]] + s[i + 1..e];
    }
  }

  /** `split` with a capturing regex, from the piece that starts at `p`, trying
      positions from `q` on: each match contributes the text before it and the
      captured rest of its line. */
  function SplitFrom(s: String, p: nat, q: nat): (r: seq<String>)
    requires p <= q <= |s|
    ensures |r| % 2 == 1
    decreases |s| - q
  {
    if q == |s| then [s[p..]]
    else if SeparatorAt(s, q) then
      var e := LineEndFrom(s, q + 3);
      [s[p..q], s[q + 3..e]] + SplitFrom(s, e, e)
    else SplitFrom(s, p, q + 1)
  }

  /** Every piece at an odd position of `r` lies on one line. */
  predicate OddPiecesOnOneLine(r: seq<String>) {
    forall k :: 0 <= k < |r| && k % 2 == 1 ==> OnOneLine(r[k])
  }

  /** The captured texts, at the odd positions, each lie on one line. */
  lemma {:induction false} SplitFromCaptures(s: String, p: nat, q: nat)
    requires p <= q <= |s|
    ensures OddPiecesOnOneLine(SplitFrom(s, p, q))
    decreases |s| - q
  {
    if q < |s| {
      if SeparatorAt(s, q) {
        var e := LineEndFrom(s, q + 3);
        var rest := SplitFrom(s, e, e);
        SplitFromCaptures(s, e, e);
        LineEndFromOneLine(s, q + 3);
        OddPiecesPrepend(s[p..q], s[q + 3..e], rest);
      } else {
        SplitFromCaptures(s, p, q + 1);
      }
    }
  }

  lemma OddPiecesPrepend(a: String, b: String, rest: seq<String>)
    requires OnOneLine(b) && OddPiecesOnOneLine(rest)
    ensures OddPiecesOnOneLine([a, b] + rest)
  {
    var r := [a, b] + rest;
    forall k | 0 <= k < |r| && k % 2 == 1 ensures OnOneLine(r[k]) {
      if k >= 2 {
        assert r[k] == rest[k - 2];
      }
    }
  }

  /** The pieces of a source: the chunks between separator lines at the even
      positions, the text after each `###` at the odd ones. */
  function SplitBlocks(source: String): seq<String> {
    SplitFrom(source, 0, 0)
  }

  /** Putting `###` back before each captured text rebuilds the text. */
  function Rejoin(pieces: seq<String>): String
    requires |pieces| % 2 == 1
    decreases |pieces|
  {
    if |pieces| == 1 then pieces[0] else pieces[0] + "###" + pieces[1] + Rejoin(pieces[2..])
  }

  lemma {:induction false} RejoinSplitFrom(s: String, p: nat, q: nat)
    requires p <= q <= |s|
    ensures Rejoin(SplitFrom(s, p, q)) == s[p..]
    decreases |s| - q
  {
    if q < |s| {
      if SeparatorAt(s, q) {
        var e := LineEndFrom(s, q + 3);
        var rest := SplitFrom(s, e, e);
        RejoinSplitFrom(s, e, e);
        RejoinPair(s[p..q], s[q + 3..e], rest);
        CutAtSeparator(s, p, q, e);
      } else {
        RejoinSplitFrom(s, p, q + 1);
      }
    }
  }

  lemma RejoinPair(a: String, b: String, rest: seq<String>)
    requires |rest| % 2 == 1
    ensures Rejoin([a, b] + rest) == a + "###" + b + Rejoin(rest)
  {
    assert ([a, b] + rest)[2..] == rest;
  }

  /** The text from `p` around a separator at `q` whose line ends at `e`. */
  lemma CutAtSeparator(s: String, p: nat, q: nat, e: nat)
    requires p <= q && SeparatorAt(s, q) && q + 3 <= e <= |s|
    ensures s[p..] == s[p..q] + "###" + s[q + 3..e] + s[e..]
  {
    assert s[p..] == s[p..q] + s[q..q + 3] + s[q + 3..e] + s[e..];
  }

  /** Splitting loses nothing: the pieces with `###` put back are the source. */
  lemma RejoinSplitBlocks(source: String)
    ensures Rejoin(SplitBlocks(source)) == source
  {
    RejoinSplitFrom(source, 0, 0);
    assert source[0..] == source;
  }

  // ---------------------------------------------------------------------------
  // getParsedDocument and getBlock
  // ---------------------------------------------------------------------------

  datatype ParsedBlock = ParsedBlock(
    name: String,
    start: nat,
    end: nat,
    httpMethod: String,
    url: String,
    body: Option<String>,
    httpVersion: String,
    magicTypes: map<String, String>,
    headers: map<String, String>,
    blockIndex: nat)

  datatype ParsedDocument = ParsedDocument(variables: map<String, String>, blocks: seq<ParsedBlock>)

  /** The magic `name` when it is non-empty, otherwise `Block #` and the
      position counted from 1. */
  function BlockName(magicTypes: map<String, String>, index: nat): String {
    if "name" in magicTypes && magicTypes["name"] != "" then magicTypes["name"] else "Block #" + NatToString(index + 1)
  }

  /** What the loop body makes of piece `index`: nothing when it has no
      request line, otherwise a block, unless reading its headers throws. */
  function PieceBlock(pieces: seq<String>, index: nat): (r: Result<Option<ParsedBlock>>)
    requires index < |pieces|
    ensures r.Ok? && r.value.Some? ==> r.value.value.blockIndex == index
  {
    var piece := pieces[index];
    var lines := Split(piece, '\n');
    match LastRequestLine(lines)
    case None => Ok(None)
    case Some(requestLine) =>
      match HeadersAndBodyOf(piece)
      case Err(m) => Err(m)
      case Ok(hb) => Ok(Some(MakeBlock(pieces, index, requestLine, LastWins(lines, GetMagicType), hb)))
  }

  /** The block of piece `index`: named, placed at the previous piece's length
      and as long as the piece. */
  function MakeBlock(pieces: seq<String>, index: nat, requestLine: RequestLine, magicTypes: map<String, String>, hb: HeadersAndBody): ParsedBlock
    requires index < |pieces|
  {
    var start := if index == 0 then 0 else |pieces[index - 1]|;
    ParsedBlock(BlockName(magicTypes, index), start, start + |pieces[index]|, requestLine.httpMethod,
      requestLine.url, hb.body, requestLine.httpVersion, magicTypes, hb.headers, index)
  }

  /** A piece yields no block exactly when it has no request line, and fails
      exactly when it has one and reading its headers throws. A block spans as
      many characters as its piece, carries the piece's last request line, its
      magic types, headers and body, and is named by its magic `name` or else
      by its position counted from 1. */
  lemma PieceBlockSpec(pieces: seq<String>, index: nat)
    requires index < |pieces|
    ensures PieceBlock(pieces, index) == Ok(None) <==> LastRequestLine(Split(pieces[index], '\n')).None?
    ensures PieceBlock(pieces, index).Err? <==>
      LastRequestLine(Split(pieces[index], '\n')).Some? && HeadersAndBodyOf(pieces[index]).Err?
    ensures PieceBlock(pieces, index).Ok? && PieceBlock(pieces, index).value.Some? ==>
      var b := PieceBlock(pieces, index).value.value;
      b.end - b.start == |pieces[index]| && b.blockIndex == index
      && LastRequestLine(Split(pieces[index], '\n')) == Some(RequestLine(b.httpMethod, b.url, b.httpVersion))
      && b.magicTypes == LastWins(Split(pieces[index], '\n'), GetMagicType)
      && HeadersAndBodyOf(pieces[index]) == Ok(HeadersAndBody(b.headers, b.body))
      && b.name == (if "name" in b.magicTypes && b.magicTypes["name"] != "" then b.magicTypes["name"]
                    else "Block #" + NatToString(index + 1))
  {
  }

  /** The blocks of the first `n` pieces; the first throw ends the loop. */
  function BlocksUpTo(pieces: seq<String>, n: nat): Result<seq<ParsedBlock>>
    requires n <= |pieces|
  {
    if n == 0 then Ok([])
    else match BlocksUpTo(pieces, n - 1)
      case Err(m) => Err(m)
      case Ok(bs) =>
        match PieceBlock(pieces, n - 1)
        case Err(m) => Err(m)
        case Ok(None) => Ok(bs)
        case Ok(Some(b)) => Ok(bs + [b])
  }

  /** `getParsedDocument`: the variables of the whole source and a block for
      every piece with a request line. */
  function ParsedDocumentOf(source: String): Result<ParsedDocument> {
    var pieces := SplitBlocks(source);
    match BlocksUpTo(pieces, |pieces|)
    case Err(m) => Err(m)
    case Ok(blocks) => Ok(ParsedDocument(LastWins(Split(source, '\n'), MatchVariable), blocks))
  }

  lemma {:induction false} BlocksErrSticks(pieces: seq<String>, i: nat, n: nat)
    requires i <= n <= |pieces| && BlocksUpTo(pieces, i).Err?
    ensures BlocksUpTo(pieces, n) == BlocksUpTo(pieces, i)
    decreases n - i
  {
    if i < n {
      BlocksErrSticks(pieces, i, n - 1);
    }
  }

  /** The callback `getParsedDocument` runs for each piece. */
  method ParseBlockAt(blocks: seq<String>, index: nat) returns (r: Result<Option<ParsedBlock>>)
    requires index < |blocks|
    ensures r == PieceBlock(blocks, index)
  {
    var block := blocks[index];
    var requestLine := GetRequestLineFromBlock(block);
    if requestLine.None? {
      return Ok(None);
    }
    var magicTypes := GetMagicTypes(block);
    var headersAndBody := GetHeadersAndBody(block);
    if headersAndBody.Err? {
      return Err(headersAndBody.message);
    }
    return Ok(Some(MakeBlock(blocks, index, requestLine.value, magicTypes, headersAndBody.value)));
  }

  /** The loop over the pieces in `getParsedDocument`. */
  method ParseBlocks(blocks: seq<String>) returns (r: Result<seq<ParsedBlock>>)
    ensures r == BlocksUpTo(blocks, |blocks|)
  {
    var parsed: seq<ParsedBlock> := [];
    for index := 0 to |blocks|
      invariant BlocksUpTo(blocks, index) == Ok(parsed)
    {
      var block := ParseBlockAt(blocks, index);
      if block.Err? {
        BlocksErrSticks(blocks, index + 1, |blocks|);
        return Err(block.message);
      }
      if block.value.Some? {
        parsed := parsed + [block.value.value];
      }
    }
    return Ok(parsed);
  }

  method GetParsedDocument(source: String) returns (r: Result<ParsedDocument>)
    ensures r == ParsedDocumentOf(source)
  {
    var variables := GetVariablesFromDocument(source);
    var blocks := ParseBlocks(SplitBlocks(source));
    if blocks.Err? {
      return Err(blocks.message);
    }
    return Ok(ParsedDocument(variables, blocks.value));
  }

  /** `find`: the first block with the index asked for. */
  function FindBlock(blocks: seq<ParsedBlock>, blockIndex: nat): (r: Option<ParsedBlock>)
    ensures r.None? <==> forall k :: 0 <= k < |blocks| ==> blocks[k].blockIndex != blockIndex
    ensures r.Some? ==> exists k :: (0 <= k < |blocks| && blocks[k] == r.value && r.value.blockIndex == blockIndex &&
      forall j :: 0 <= j < k ==> blocks[j].blockIndex != blockIndex)
  {
    if blocks == [] then None
    else if blocks[0].blockIndex == blockIndex then Some(blocks[0])
    else
      var r := FindBlock(blocks[1..], blockIndex);
      assert forall k :: 1 <= k < |blocks| ==> blocks[k] == blocks[1..][k - 1];
      r
  }

  function GetBlock(doc: ParsedDocument, blockIndex: nat): Option<ParsedBlock> {
    FindBlock(doc.blocks, blockIndex)
  }

  /** Block `b` is what piece `b.blockIndex` yields. */
  ghost predicate FromItsPiece(pieces: seq<String>, b: ParsedBlock) {
    b.blockIndex < |pieces| && PieceBlock(pieces, b.blockIndex) == Ok(Some(b))
  }

  /** Every block of `bs` comes from the piece it names, below `n`. */
  ghost predicate AllFromTheirPieces(pieces: seq<String>, bs: seq<ParsedBlock>, n: nat) {
    forall k :: 0 <= k < |bs| ==> bs[k].blockIndex < n && FromItsPiece(pieces, bs[k])
  }

  lemma AllFromTheirPiecesSnoc(pieces: seq<String>, bs: seq<ParsedBlock>, b: ParsedBlock, n: nat)
    requires AllFromTheirPieces(pieces, bs, n) && b.blockIndex == n && FromItsPiece(pieces, b)
    ensures AllFromTheirPieces(pieces, bs + [b], n + 1)
  {
    var cs := bs + [b];
    forall k | 0 <= k < |cs| ensures cs[k].blockIndex < n + 1 && FromItsPiece(pieces, cs[k]) {
      if k < |bs| {
        assert cs[k] == bs[k];
      }
    }
  }

  /** Every block comes from the piece it names, below `n`. */
  lemma {:induction false} BlocksUpToSound(pieces: seq<String>, n: nat)
    requires n <= |pieces| && BlocksUpTo(pieces, n).Ok?
    ensures AllFromTheirPieces(pieces, BlocksUpTo(pieces, n).value, n)
  {
    if n > 0 {
      BlocksUpToSound(pieces, n - 1);
      var bs := BlocksUpTo(pieces, n - 1).value;
      var p := PieceBlock(pieces, n - 1);
      if p.value.Some? {
        AllFromTheirPiecesSnoc(pieces, bs, p.value.value, n - 1);
      }
    }
  }

  /** The pieces `bs` come from lie below `n`, in strictly increasing order. */
  predicate OrderedBelow(bs: seq<ParsedBlock>, n: nat) {
    (forall k :: 0 <= k < |bs| ==> bs[k].blockIndex < n) &&
    forall j, k :: 0 <= j < k < |bs| ==> bs[j].blockIndex < bs[k].blockIndex
  }

  lemma OrderedBelowSnoc(bs: seq<ParsedBlock>, b: ParsedBlock, n: nat)
    requires OrderedBelow(bs, n) && b.blockIndex == n
    ensures OrderedBelow(bs + [b], n + 1)
  {
    var cs := bs + [b];
    forall k | 0 <= k < |cs| ensures cs[k].blockIndex < n + 1 {
      if k < |bs| {
        assert cs[k] == bs[k];
      }
    }
    forall j, k | 0 <= j < k < |cs| ensures cs[j].blockIndex < cs[k].blockIndex {
      assert cs[j] == bs[j];
      if k < |bs| {
        assert cs[k] == bs[k];
      }
    }
  }

  /** The blocks come in strictly increasing order of pieces, all below `n`. */
  lemma {:induction false} BlocksUpToOrdered(pieces: seq<String>, n: nat)
    requires n <= |pieces| && BlocksUpTo(pieces, n).Ok?
    ensures OrderedBelow(BlocksUpTo(pieces, n).value, n)
  {
    if n > 0 {
      BlocksUpToOrdered(pieces, n - 1);
      var bs := BlocksUpTo(pieces, n - 1).value;
      var p := PieceBlock(pieces, n - 1);
      if p.value.Some? {
        OrderedBelowSnoc(bs, p.value.value, n - 1);
      }
    }
  }


  /** Every piece below `n` with a request line has its block. */
  lemma {:induction false} BlocksUpToComplete(pieces: seq<String>, n: nat, i: nat)
    requires i < n <= |pieces| && BlocksUpTo(pieces, n).Ok?
    requires LastRequestLine(Split(pieces[i], '\n')).Some?
    ensures exists k :: 0 <= k < |BlocksUpTo(pieces, n).value| && BlocksUpTo(pieces, n).value[k].blockIndex == i
  {
    var bs := BlocksUpTo(pieces, n).value;
    if i == n - 1 {
      var b := PieceBlock(pieces, i).value.value;
      assert bs[|bs| - 1] == b;
    } else {
      BlocksUpToComplete(pieces, n - 1, i);
      var k :| 0 <= k < |BlocksUpTo(pieces, n - 1).value| && BlocksUpTo(pieces, n - 1).value[k].blockIndex == i;
      assert bs[k] == BlocksUpTo(pieces, n - 1).value[k];
    }
  }

  /** `getBlock` on a parsed document finds a block exactly for the pieces
      that have a request line, and it is the block of that piece. */
  lemma GetBlockOfParsed(source: String, i: nat)
    requires ParsedDocumentOf(source).Ok?
    ensures var pieces := SplitBlocks(source);
      GetBlock(ParsedDocumentOf(source).value, i).Some? <==>
        (i < |pieces| && LastRequestLine(Split(pieces[i], '\n')).Some?)
    ensures GetBlock(ParsedDocumentOf(source).value, i).Some? ==>
      var pieces := SplitBlocks(source);
      i < |pieces| && PieceBlock(pieces, i) == Ok(GetBlock(ParsedDocumentOf(source).value, i))
  {
    var pieces := SplitBlocks(source);
    var bs := BlocksUpTo(pieces, |pieces|).value;
    BlocksUpToSound(pieces, |pieces|);
    BlocksUpToOrdered(pieces, |pieces|);
    if i < |pieces| && LastRequestLine(Split(pieces[i], '\n')).Some? {
      BlocksUpToComplete(pieces, |pieces|, i);
    }
  }
}
