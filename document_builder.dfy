/** The serialiser that turns a `Document` back into `.http` text, and the body
    helpers it uses: header-key casing, form-urlencoded layout, multipart
    encoding, the GraphQL query/variables split and the formatter choice. The
    external formatter is a parameter that may fail. */
module DocumentBuilder {
  import opened Wrappers
  import opened Strings
  import DocumentParser
  import Placeholders

  type Header = DocumentParser.Header
  type FormField = DocumentParser.FormField
  type Block = DocumentParser.Block
  type Request = DocumentParser.Request
  type Document = DocumentParser.Document

  const DefaultBoundary: String := "----KulalaBoundary"

  // ---------------------------------------------------------------------------
  // headerToPascalCase
  // ---------------------------------------------------------------------------

  /** A word with its first character upper-cased and the rest kept. */
  function Capitalize(w: String): String {
    if w == [] then [] else [Upper(w[0])] + w[1..]
  }

  function CapitalizeAll(ws: seq<String>): (r: seq<String>)
    ensures |r| == |ws|
    ensures forall i :: 0 <= i < |ws| ==> r[i] == Capitalize(ws[i])
  {
    seq(|ws|, i requires 0 <= i < |ws| => Capitalize(ws[i]))
  }

  /** `headerToPascalCase`: split on `-`, capitalise each piece, join on `-`. */
  function HeaderToPascalCase(s: String): String {
    Join(CapitalizeAll(Split(s, '-')), "-")
  }

  /** Reference definition: `r` is `s` with the first character and every
      character after a `-` upper-cased, and nothing else changed. */
  predicate PascalOf(s: String, r: String) {
    |r| == |s| &&
    forall i {:trigger r[i]} :: 0 <= i < |s| ==> r[i] == (if i == 0 || s[i - 1] == '-' then Upper(s[i]) else s[i])
  }

  lemma CapitalizePascal(p: String)
    requires '-' !in p
    ensures PascalOf(p, Capitalize(p))
  {
    var r := Capitalize(p);
    forall i | 0 <= i < |p| ensures r[i] == (if i == 0 || p[i - 1] == '-' then Upper(p[i]) else p[i]) {
      if i > 0 {
        assert p[i - 1] in p;
      }
    }
  }

  lemma PascalCons(p: String, s: String, r: String)
    requires '-' !in p && PascalOf(s, r)
    ensures PascalOf(p + "-" + s, Capitalize(p) + "-" + r)
  {
    CapitalizePascal(p);
    var s', r' := p + "-" + s, Capitalize(p) + "-" + r;
    forall i | 0 <= i < |s'| ensures r'[i] == (if i == 0 || s'[i - 1] == '-' then Upper(s'[i]) else s'[i]) {
      if i < |p| {
        assert r'[i] == Capitalize(p)[i] && s'[i] == p[i];
        if i > 0 { assert s'[i - 1] == p[i - 1]; }
      } else if i == |p| {
        assert r'[i] == '-' && s'[i] == '-';
        assert Upper('-') == '-';
        if i > 0 { assert s'[i - 1] == p[i - 1]; assert p[i - 1] in p; }
      } else if i == |p| + 1 {
        assert r'[i] == r[0] && s'[i] == s[0];
        assert s'[i - 1] == '-';
      } else {
        assert r'[i] == r[i - |p| - 1] && s'[i] == s[i - |p| - 1];
        assert s'[i - 1] == s[i - |p| - 2];
      }
    }
    assert |Capitalize(p)| == |p|;
    assert PascalOf(s', r');
  }

  lemma {:induction false} JoinCapitalized(parts: seq<String>)
    requires |parts| >= 1
    requires forall i :: 0 <= i < |parts| ==> '-' !in parts[i]
    ensures PascalOf(Join(parts, "-"), Join(CapitalizeAll(parts), "-"))
  {
    if |parts| == 1 {
      CapitalizePascal(parts[0]);
    } else {
      JoinCapitalized(parts[1..]);
      assert CapitalizeAll(parts)[1..] == CapitalizeAll(parts[1..]);
      PascalCons(parts[0], Join(parts[1..], "-"), Join(CapitalizeAll(parts[1..]), "-"));
    }
  }

  /** `headerToPascalCase` upper-cases the first character of each `-` piece and
      leaves every other character where and as it was. */
  lemma PascalCaseSpec(s: String)
    ensures PascalOf(s, HeaderToPascalCase(s))
  {
    var parts := Split(s, '-');
    assert "-" == ['-'];
    JoinCapitalized(parts);
  }

  /** The pieces stay the same in number, and the key the same up to case. */
  lemma PascalCaseShape(s: String)
    ensures |Split(HeaderToPascalCase(s), '-')| == |Split(s, '-')|
    ensures ToLower(HeaderToPascalCase(s)) == ToLower(s)
  {
    var r := HeaderToPascalCase(s);
    PascalCaseSpec(s);
    PascalSameDashes(s, r);
    SplitCountBySeparators(s, r, '-');
    PascalSameLower(s, r);
  }

  lemma PascalSameDashes(s: String, r: String)
    requires PascalOf(s, r)
    ensures forall i :: 0 <= i < |s| ==> (r[i] == '-' <==> s[i] == '-')
  {
    forall i | 0 <= i < |s| ensures (r[i] == '-' <==> s[i] == '-') {
      assert r[i] == (if i == 0 || s[i - 1] == '-' then Upper(s[i]) else s[i]);
    }
  }

  lemma PascalSameLower(s: String, r: String)
    requires PascalOf(s, r)
    ensures ToLower(r) == ToLower(s)
  {
    forall i | 0 <= i < |s| ensures ToLower(r)[i] == ToLower(s)[i] {
      assert r[i] == (if i == 0 || s[i - 1] == '-' then Upper(s[i]) else s[i]);
    }
  }

  /** Casing a cased key again changes nothing. */
  lemma PascalCaseIdempotent(s: String)
    ensures HeaderToPascalCase(HeaderToPascalCase(s)) == HeaderToPascalCase(s)
  {
    var r := HeaderToPascalCase(s);
    var r2 := HeaderToPascalCase(r);
    PascalCaseSpec(s);
    PascalCaseSpec(r);
    PascalSameDashes(s, r);
    forall i | 0 <= i < |r| ensures r2[i] == r[i] {
      if i > 0 {
        assert r[i - 1] == '-' <==> s[i - 1] == '-';
      }
    }
  }

  /** Two strings with the separator at the same places split into as many pieces. */
  lemma {:induction false} SplitCountBySeparators(s: String, r: String, c: char)
    requires |r| == |s| && forall i :: 0 <= i < |s| ==> (r[i] == c <==> s[i] == c)
    ensures |Split(r, c)| == |Split(s, c)|
  {
    if s != [] {
      assert forall i :: 0 <= i < |s| - 1 ==> (r[1..][i] == c <==> s[1..][i] == c);
      SplitCountBySeparators(s[1..], r[1..], c);
    }
  }

  // ---------------------------------------------------------------------------
  // getHeader
  // ---------------------------------------------------------------------------

  /** `headers.find(...)` from position `i`: the first header whose lower-cased key
      is `lowerKey`. */
  function FindHeader(headers: seq<Header>, lowerKey: String, i: nat): (r: Option<nat>)
    requires i <= |headers|
    ensures r.Some? ==> i <= r.value < |headers| && ToLower(headers[r.value].key) == lowerKey
    ensures r.Some? ==> forall j :: i <= j < r.value ==> ToLower(headers[j].key) != lowerKey
    ensures r.None? ==> forall j :: i <= j < |headers| ==> ToLower(headers[j].key) != lowerKey
    decreases |headers| - i
  {
    if i == |headers| then None
    else if ToLower(headers[i].key) == lowerKey then Some(i)
    else FindHeader(headers, lowerKey, i + 1)
  }

  /** `getHeader`: the value of the first header whose key matches `key` up to
      case, or nothing. */
  function GetHeader(headers: seq<Header>, key: String): (r: Option<String>)
    ensures r.None? <==> forall j :: 0 <= j < |headers| ==> ToLower(headers[j].key) != ToLower(key)
    ensures r.Some? ==> exists j :: (0 <= j < |headers| && ToLower(headers[j].key) == ToLower(key)
      && r.value == headers[j].value
      && forall j' :: 0 <= j' < j ==> ToLower(headers[j'].key) != ToLower(key))
  {
    match FindHeader(headers, ToLower(key), 0)
    case None => None
    case Some(j) => Some(headers[j].value)
  }

  /** The lookup does not see the case of the key asked for. */
  lemma GetHeaderIgnoresCase(headers: seq<Header>, k1: String, k2: String)
    requires ToLower(k1) == ToLower(k2)
    ensures GetHeader(headers, k1) == GetHeader(headers, k2)
  {
  }

  // ---------------------------------------------------------------------------
  // formatSimpleFormBody
  // ---------------------------------------------------------------------------

  /** `formatSimpleFormBody`: all whitespace removed (the newline pass and the
      `\s+` pass together), then one `&`-parameter per line. */
  function FormatSimpleFormBody(body: String): String {
    var b := RemoveSpaces(body);
    var parts := Split(b, '&');
    if |parts| == 1 then parts[0]
    else CollapseBlankLines(Join(parts, "&\n"))
  }

  lemma {:induction false} FormLayoutNoBlankLine(parts: seq<String>)
    requires forall k :: 0 <= k < |parts| ==> NoSpace(parts[k])
    ensures NoBlankLine(Join(parts, "&\n"))
  {
    if |parts| == 1 {
      assert Join(parts, "&\n") == parts[0];
    } else if |parts| > 1 {
      FormLayoutNoBlankLine(parts[1..]);
      var p, j := parts[0], Join(parts[1..], "&\n");
      var a := p + "&\n";
      assert Join(parts, "&\n") == a + j;
      forall i | 0 <= i < |a| ensures !BlankLineAt((a + j)[i..]) {
        if i == |p| + 1 {
          var t := (a + j)[i..];
          assert t == "\n" + j;
          if |t| > 1 {
            assert t[1] == j[0];
            if |parts[1..]| == 1 {
              assert j == parts[1];
            } else {
              assert j == parts[1] + "&\n" + Join(parts[2..], "&\n");
              if parts[1] == [] { assert j[0] == '&'; }
            }
            assert !IsSpace(t[1]);
          }
          NoBlankAtHead(t, 1);
        } else {
          assert (a + j)[i..][0] == (a + j)[i] != '\n';
        }
      }
      DocumentParser.NoBlankLineAppend(a, j);
    }
  }

  /** Without whitespace, the blank-line pass has nothing to do: the result is the
      parameters joined with `&` and a newline. */
  lemma FormLayout(body: String)
    ensures FormatSimpleFormBody(body) == Join(Split(RemoveSpaces(body), '&'), "&\n")
  {
    var b := RemoveSpaces(body);
    var parts := Split(b, '&');
    if |parts| > 1 {
      RemoveSpacesLeavesNoSpace(body);
      forall k | 0 <= k < |parts| ensures NoSpace(parts[k]) {
        DocumentParser.SplitPartNoSpace(b, '&', k);
      }
      FormLayoutNoBlankLine(parts);
      CollapseWithoutBlankLines(Join(parts, "&\n"));
    }
  }

  lemma {:induction false} RemoveSpacesJoinAfter(parts: seq<String>, gap: String)
    requires forall k :: 0 <= k < |gap| ==> IsSpace(gap[k])
    ensures RemoveSpaces(Join(parts, "&" + gap)) == RemoveSpaces(Join(parts, "&"))
  {
    if |parts| > 1 {
      RemoveSpacesJoinAfter(parts[1..], gap);
      var j, j' := Join(parts[1..], "&" + gap), Join(parts[1..], "&");
      assert Join(parts, "&" + gap) == (parts[0] + "&") + (gap + j);
      assert Join(parts, "&") == (parts[0] + "&") + j';
      RemoveSpacesAppend(parts[0] + "&", gap + j);
      RemoveSpacesAppend(gap, j);
      RemoveSpacesOfSpaces(gap);
      RemoveSpacesAppend(parts[0] + "&", j');
    }
  }

  /** Deleting the inserted newlines gives back the input without whitespace, and
      an input without `&` comes back without whitespace only. */
  lemma FormKeepsContent(body: String)
    ensures RemoveSpaces(FormatSimpleFormBody(body)) == RemoveSpaces(body)
    ensures '&' !in body ==> FormatSimpleFormBody(body) == RemoveSpaces(body)
  {
    var b := RemoveSpaces(body);
    var parts := Split(b, '&');
    FormLayout(body);
    assert "&\n" == "&" + "\n";
    RemoveSpacesJoinAfter(parts, "\n");
    assert "&" == ['&'];
    RemoveSpacesLeavesNoSpace(body);
    RemoveSpacesOfNoSpace(b);
    if '&' !in body {
      RemoveSpacesKeepsAbsence(body, '&');
      SplitNone(b, '&');
    }
  }

  lemma {:induction false} RemoveSpacesKeepsAbsence(s: String, c: char)
    requires c !in s
    ensures c !in RemoveSpaces(s)
  {
    if s != [] {
      assert c !in s[1..];
      RemoveSpacesKeepsAbsence(s[1..], c);
    }
  }

  /** Formatting a formatted form body changes nothing. */
  lemma FormIdempotent(body: String)
    ensures FormatSimpleFormBody(FormatSimpleFormBody(body)) == FormatSimpleFormBody(body)
  {
    FormKeepsContent(body);
  }

  // ---------------------------------------------------------------------------
  // replaceCommentPrefix
  // ---------------------------------------------------------------------------

  /** A leading double slash becomes a single hash; anything else is kept. */
  function ReplaceCommentPrefix(c: String): (r: String)
    ensures !StartsWith(r, "//")
    ensures StartsWith(c, "//") ==> |r| == |c| - 1 && r[0] == '#' && r[1..] == c[2..]
    ensures !StartsWith(c, "//") ==> r == c
  {
    if StartsWith(c, "//") then
      var r := "#" + c[2..];
      assert r[0] == '#';
      r
    else c
  }

  lemma CommentPrefixIdempotent(c: String)
    ensures ReplaceCommentPrefix(ReplaceCommentPrefix(c)) == ReplaceCommentPrefix(c)
  {
  }

  // ---------------------------------------------------------------------------
  // getMultipartFormBoundary
  // ---------------------------------------------------------------------------

  /** `boundary=(.+)` can match at `p`: the literal, then at least one character
      `.` accepts. */
  predicate BoundaryAt(s: String, p: nat) {
    OccursAt(s, "boundary=", p) && p + 9 < |s| && !IsLineTerminator(s[p + 9])
  }

  /** The leftmost match at or after `i`. */
  function BoundaryMatch(s: String, i: nat): (r: Option<nat>)
    ensures r.Some? ==> i <= r.value && BoundaryAt(s, r.value)
    ensures r.Some? ==> forall q :: i <= q < r.value ==> !BoundaryAt(s, q)
    ensures r.None? ==> forall q :: i <= q ==> !BoundaryAt(s, q)
    decreases |s| - i
  {
    if i + 9 >= |s| then None
    else if BoundaryAt(s, i) then Some(i)
    else BoundaryMatch(s, i + 1)
  }

  /** The first line terminator at or after `j`, or the end. */
  function LineEnd(s: String, j: nat): (k: nat)
    requires j <= |s|
    ensures j <= k <= |s|
    ensures forall m :: j <= m < k ==> !IsLineTerminator(s[m])
    ensures k == |s| || IsLineTerminator(s[k])
    decreases |s| - j
  {
    if j == |s| || IsLineTerminator(s[j]) then j else LineEnd(s, j + 1)
  }

  /** `getMultipartFormBoundary`: the capture of the leftmost `boundary=(.+)` in a
      non-empty content type, or the default boundary. */
  function GetMultipartFormBoundary(headers: seq<Header>): (r: String)
    ensures |r| > 0 && forall m :: 0 <= m < |r| ==> !IsLineTerminator(r[m])
  {
    var ct := GetHeader(headers, "content-type");
    if !DocumentParser.Truthy(ct) then DefaultBoundary
    else match BoundaryMatch(ct.value, 0)
      case None => DefaultBoundary
      case Some(p) => ct.value[p + 9..LineEnd(ct.value, p + 9)]
  }

  /** The content type `build` writes for multipart bodies gives its boundary
      back: the capture runs to the end of the line. */
  lemma BoundaryOfContentType(headers: seq<Header>, b: String)
    requires GetHeader(headers, "content-type") == Some("multipart/form-data; boundary=" + b)
    requires |b| > 0 && forall m :: 0 <= m < |b| ==> !IsLineTerminator(b[m])
    ensures GetMultipartFormBoundary(headers) == b
  {
    ContentTypeParts(b);
    BoundaryCapture("multipart/form-data; ", b);
  }

  lemma ContentTypeParts(b: String)
    ensures 'b' !in "multipart/form-data; "
    ensures "multipart/form-data; boundary=" + b == "multipart/form-data; " + "boundary=" + b
  {
  }

  /** After a prefix without a `b`, the capture is the rest of the line. */
  lemma BoundaryCapture(pre: String, b: String)
    requires 'b' !in pre && |b| > 0 && forall m :: 0 <= m < |b| ==> !IsLineTerminator(b[m])
    ensures var s := pre + "boundary=" + b;
      BoundaryMatch(s, 0) == Some(|pre|) && s[|pre| + 9..LineEnd(s, |pre| + 9)] == b
  {
    var s := pre + "boundary=" + b;
    BoundaryAfterPrefix(pre, b);
    assert s[|pre| + 9..] == b;
    forall m | |pre| + 9 <= m < |s| ensures !IsLineTerminator(s[m]) {
      assert s[m] == b[m - |pre| - 9];
    }
    LineEndOfLine(s, |pre| + 9);
  }

  /** After a prefix without a `b`, the first `boundary=` is the match. */
  lemma BoundaryAfterPrefix(pre: String, b: String)
    requires 'b' !in pre && |b| > 0 && !IsLineTerminator(b[0])
    ensures BoundaryMatch(pre + "boundary=" + b, 0) == Some(|pre|)
  {
    var s := pre + "boundary=" + b;
    assert s[|pre|..|pre| + 9] == "boundary=";
    assert s[|pre| + 9] == b[0];
    forall q | 0 <= q < |pre| ensures !BoundaryAt(s, q) {
      assert s[q] == pre[q];
      if q + 9 <= |s| {
        assert s[q..q + 9][0] == s[q];
      }
    }
    BoundaryMatchIs(s, |pre|);
  }

  lemma BoundaryMatchIs(s: String, p: nat)
    requires BoundaryAt(s, p) && forall q :: 0 <= q < p ==> !BoundaryAt(s, q)
    ensures BoundaryMatch(s, 0) == Some(p)
  {
  }

  lemma LineEndOfLine(s: String, j: nat)
    requires j <= |s| && forall m :: j <= m < |s| ==> !IsLineTerminator(s[m])
    ensures LineEnd(s, j) == |s|
  {
  }

  /** Without a content type, or with an empty one, the default boundary. */
  lemma DefaultBoundaryWithoutContentType(headers: seq<Header>)
    requires (forall j :: 0 <= j < |headers| ==> ToLower(headers[j].key) != "content-type")
      || (exists j :: 0 <= j < |headers| && ToLower(headers[j].key) == "content-type" && headers[j].value == []
                     && forall j' :: 0 <= j' < j ==> ToLower(headers[j'].key) != "content-type")
    ensures GetMultipartFormBoundary(headers) == DefaultBoundary
  {
    assert ToLower("content-type") == "content-type";
    var ct := GetHeader(headers, "content-type");
    if ct.Some? {
      var j :| 0 <= j < |headers| && ToLower(headers[j].key) == "content-type" && headers[j].value == []
        && forall j' :: 0 <= j' < j ==> ToLower(headers[j'].key) != "content-type";
      var i :| 0 <= i < |headers| && ToLower(headers[i].key) == "content-type" && ct.value == headers[i].value
        && forall j' :: 0 <= j' < i ==> ToLower(headers[j'].key) != "content-type";
      assert !(i < j) && !(j < i);
    }
  }

  // ---------------------------------------------------------------------------
  // getFormatParser
  // ---------------------------------------------------------------------------

  datatype FormatParser = GraphQL | Json

  /** `getFormatParser`: GraphQL when `x-request-type` is exactly `graphql`, else
      JSON when `content-type` is exactly `application/json`, else none. */
  function GetFormatParser(block: Block): (r: Option<FormatParser>)
    ensures r == Some(GraphQL) <==>
      block.request.Some? && GetHeader(block.request.value.headers, "x-request-type") == Some("graphql")
    ensures r == Some(Json) <==>
      block.request.Some? && GetHeader(block.request.value.headers, "x-request-type") != Some("graphql")
      && GetHeader(block.request.value.headers, "content-type") == Some("application/json")
    ensures block.request.None? ==> r.None?
  {
    var headers := if block.request.Some? then block.request.value.headers else [];
    if GetHeader(headers, "x-request-type") == Some("graphql") then Some(GraphQL)
    else if GetHeader(headers, "content-type") == Some("application/json") then Some(Json)
    else None
  }


  // ---------------------------------------------------------------------------
  // splitGraphQLBody
  // ---------------------------------------------------------------------------

  /** Where a match of `\n\s*\n(\s*{)` sits: `nl` is the newline that ends `\s*`,
      `brace` the brace that ends the capture. */
  datatype GraphQLMatch = GraphQLMatch(nl: nat, brace: nat)

  /** The last newline in `[lo, hi)`, or `lo - 1` when there is none. */
  function LastNewlineIn(s: String, lo: nat, hi: nat): (k: int)
    requires lo <= hi <= |s|
    ensures lo - 1 <= k < hi
    ensures k >= lo ==> s[k] == '\n'
    decreases hi - lo
  {
    if hi == lo then lo - 1
    else if s[hi - 1] == '\n' then hi - 1
    else LastNewlineIn(s, lo, hi - 1)
  }

  /** A match at `i`. Both runs of `\s` lie inside the whitespace run after
      `s[i]`; the brace must be the first character after that run, and the greedy
      first `\s*` gives back only as far as the last newline of the run, so the
      capture is everything after that newline up to and including the brace. */
  function GraphQLMatchAt(s: String, i: nat): (r: Option<GraphQLMatch>)
    requires i <= |s|
    ensures r.Some? ==> i < r.value.nl < r.value.brace < |s| && s[r.value.brace] == '{'
  {
    if i < |s| && s[i] == '\n' then
      var j := SpaceRunEnd(s, i + 1);
      var k := LastNewlineIn(s, i + 1, j);
      if k >= i + 1 && j < |s| && s[j] == '{' then Some(GraphQLMatch(k, j)) else None
    else None
  }

  /** What a match is made of: a newline, whitespace up to the brace, and the
      newline ending `\s*` in between. */
  lemma GraphQLMatchShape(s: String, i: nat)
    requires i <= |s| && GraphQLMatchAt(s, i).Some?
    ensures s[i] == '\n' && s[GraphQLMatchAt(s, i).value.nl] == '\n'
    ensures forall q :: i < q < GraphQLMatchAt(s, i).value.brace ==> IsSpace(s[q])
  {
    SpaceRunEndSpaces(s, i + 1);
  }

  /** A match and where it starts. */
  datatype Found = Found(at: nat, m: GraphQLMatch)

  /** The first match at or after `q`. */
  function NextGraphQLMatch(s: String, q: nat): (r: Option<Found>)
    requires q <= |s|
    ensures r.Some? ==> q <= r.value.at < r.value.m.nl < r.value.m.brace < |s| && s[r.value.m.brace] == '{'
    decreases |s| - q
  {
    if q == |s| then None
    else match GraphQLMatchAt(s, q)
      case Some(g) => Some(Found(q, g))
      case None => NextGraphQLMatch(s, q + 1)
  }

  /** What `NextGraphQLMatch` finds is a match. */
  lemma {:induction false} NextGraphQLMatchSound(s: String, q: nat)
    requires q <= |s| && NextGraphQLMatch(s, q).Some?
    ensures GraphQLMatchAt(s, NextGraphQLMatch(s, q).value.at) == Some(NextGraphQLMatch(s, q).value.m)
    decreases |s| - q
  {
    if GraphQLMatchAt(s, q).None? {
      NextGraphQLMatchSound(s, q + 1);
    }
  }

  /** Everything after the first split piece, rejoined, from position `p` on: the pieces between matches
      and the captures, in order; the uncaptured `\n\s*\n` of each match is lost. */
  function GraphQLRest(s: String, p: nat): String
    requires p <= |s|
    decreases |s| - p
  {
    match NextGraphQLMatch(s, p)
    case None => s[p..]
    case Some(f) => s[p..f.at] + s[f.m.nl + 1..f.m.brace + 1] + GraphQLRest(s, f.m.brace + 1)
  }

  datatype GraphQLBody = GraphQLBody(query: String, variables: Option<String>)

  /** `splitGraphQLBody`: cut at the first blank line followed by a brace. */
  function SplitGraphQLBody(body: String): GraphQLBody {
    match NextGraphQLMatch(body, 0)
    case None => GraphQLBody(Trim(body), None)
    case Some(f) => GraphQLBody(Trim(body[..f.at]), Some(GraphQLVariables(body, f.m)))
  }

  /** The variables part, trimmed: the first capture and everything after it. */
  function GraphQLVariables(body: String, g: GraphQLMatch): String
    requires g.nl < g.brace < |body|
  {
    Trim(body[g.nl + 1..g.brace + 1] + GraphQLRest(body, g.brace + 1))
  }

  /** `NextGraphQLMatch` finds the leftmost match. */
  lemma {:induction false} NextGraphQLMatchIs(s: String, q: nat, i: nat)
    requires q <= i < |s| && GraphQLMatchAt(s, i).Some?
    requires forall k :: q <= k < i ==> GraphQLMatchAt(s, k).None?
    ensures NextGraphQLMatch(s, q) == Some(Found(i, GraphQLMatchAt(s, i).value))
    decreases i - q
  {
    if q < i {
      NextGraphQLMatchIs(s, q + 1, i);
    }
  }

  lemma {:induction false} NoNextGraphQLMatch(s: String, q: nat)
    requires q <= |s| && forall k :: q <= k < |s| ==> GraphQLMatchAt(s, k).None?
    ensures NextGraphQLMatch(s, q) == None
    decreases |s| - q
  {
    if q < |s| {
      NoNextGraphQLMatch(s, q + 1);
    }
  }

  /** With a first match at `i`, the query is the trimmed text before it and
      there are variables. */
  lemma GraphQLQueryBeforeFirstMatch(body: String, i: nat)
    requires i < |body| && GraphQLMatchAt(body, i).Some?
    requires forall k :: 0 <= k < i ==> GraphQLMatchAt(body, k).None?
    ensures SplitGraphQLBody(body).query == Trim(body[..i])
    ensures SplitGraphQLBody(body).variables.Some?
  {
    NextGraphQLMatchIs(body, 0, i);
  }

  /** Without any match the whole trimmed body is the query and there are no
      variables. */
  lemma GraphQLWithoutMatch(body: String)
    requires forall k :: 0 <= k < |body| ==> GraphQLMatchAt(body, k).None?
    ensures SplitGraphQLBody(body) == GraphQLBody(Trim(body), None)
  {
    NoNextGraphQLMatch(body, 0);
  }

  /** A body without a brace is all query. */
  lemma GraphQLWithoutBrace(body: String)
    requires '{' !in body
    ensures SplitGraphQLBody(body) == GraphQLBody(Trim(body), None)
  {
  }

  /** After trimming, a run of whitespace and a brace leaves the brace in front. */
  lemma TrimFromBrace(x: String, n: nat)
    requires n < |x| && x[n] == '{' && forall q :: 0 <= q < n ==> IsSpace(x[q])
    ensures Trim(x) != [] && Trim(x)[0] == '{'
  {
    var t := TrimStart(x);
    TrimStartSuffix(x);
    TrimStartCutsSpaces(x);
    assert t[0] == '{';
    TrimEndPrefix(t);
    TrimEndCutsSpaces(t);
    assert TrimEnd(t)[0] == t[0];
  }

  /** Whitespace, then a brace, and nothing after it. */
  predicate SpacesThenBrace(c: String) {
    |c| > 0 && c[|c| - 1] == '{' && forall q :: 0 <= q < |c| - 1 ==> IsSpace(c[q])
  }

  /** The variables when the body has a match: trimmed from its capture on. */
  lemma GraphQLSplitUnfold(body: String) returns (c: String, rest: String)
    requires NextGraphQLMatch(body, 0).Some?
    ensures SpacesThenBrace(c)
    ensures SplitGraphQLBody(body).variables == Some(Trim(c + rest))
  {
    var f := NextGraphQLMatch(body, 0).value;
    NextGraphQLMatchSound(body, 0);
    GraphQLMatchCapture(body, f.at);
    assert SplitGraphQLBody(body).variables == Some(GraphQLVariables(body, f.m));
    c := body[f.m.nl + 1..f.m.brace + 1];
    rest := GraphQLRest(body, f.m.brace + 1);
  }

  lemma GraphQLMatchCapture(s: String, i: nat)
    requires i <= |s| && GraphQLMatchAt(s, i).Some?
    ensures var g := GraphQLMatchAt(s, i).value; SpacesThenBrace(s[g.nl + 1..g.brace + 1])
  {
    var g := GraphQLMatchAt(s, i).value;
    GraphQLMatchShape(s, i);
    CaptureShape(s, g.nl, g.brace);
  }

  /** Variables, when there are any, open with the brace. */
  lemma GraphQLVariablesOpenWithBrace(body: String)
    requires SplitGraphQLBody(body).variables.Some?
    ensures SplitGraphQLBody(body).variables.value != []
    ensures SplitGraphQLBody(body).variables.value[0] == '{'
  {
    var c, rest := GraphQLSplitUnfold(body);
    BraceBefore(c, rest);
  }

  /** The capture: whitespace, then the brace. */
  lemma CaptureShape(s: String, nl: nat, brace: nat)
    requires nl < brace < |s| && s[brace] == '{' && forall q :: nl < q < brace ==> IsSpace(s[q])
    ensures SpacesThenBrace(s[nl + 1..brace + 1])
  {
    var c := s[nl + 1..brace + 1];
    forall q | 0 <= q < |c| - 1 ensures IsSpace(c[q]) {
      assert c[q] == s[nl + 1 + q];
    }
  }

  lemma BraceBefore(c: String, rest: String)
    requires SpacesThenBrace(c)
    ensures Trim(c + rest) != [] && Trim(c + rest)[0] == '{'
  {
    var x := c + rest;
    forall q | 0 <= q < |c| - 1 ensures IsSpace(x[q]) {
      assert x[q] == c[q];
    }
    TrimFromBrace(x, |c| - 1);
  }

  // ---------------------------------------------------------------------------
  // formatMultipartFormBody
  // ---------------------------------------------------------------------------

  /** The file name as the template prints it: the text `undefined` when the field has no file. */
  function FileNameText(file: Option<DocumentParser.FileInfo>): String {
    if file.Some? then file.value.fileName else "undefined"
  }

  /** The file content type as the template prints it. */
  function FileContentTypeText(file: Option<DocumentParser.FileInfo>): String {
    if file.Some? then file.value.contentType else "undefined"
  }

  predicate IsFile(f: FormField) {
    f.fieldType == Some(DocumentParser.FileField)
  }

  /** The delimiter line: two dashes, the boundary, a newline. */
  function Delimiter(b: String): String {
    "--" + b + "\n"
  }

  /** The closing delimiter line: the boundary between two pairs of dashes. */
  function ClosingDelimiter(b: String): String {
    "--" + b + "--\n"
  }

  /** The `Content-Disposition` line; for a text field it also carries the blank
      line before the value. */
  function DispositionLine(f: FormField): String {
    if IsFile(f) then
      "Content-Disposition: form-data; name=\"" + f.key + "\"; filename=\"" + FileNameText(f.file) + "\"\n"
    else
      "Content-Disposition: form-data; name=\"" + f.key + "\"\n\n"
  }

  /** The `Content-Type` line of a file field and the blank line after it. */
  function ContentTypeLine(f: FormField): String {
    "Content-Type: " + FileContentTypeText(f.file) + "\n\n"
  }

  function ValueLine(f: FormField): String {
    f.value + "\n"
  }

  /** What one field contributes: the opening delimiter, its headers and value,
      one more delimiter unless it is the last field, and the closing delimiter. */
  function FieldChunk(b: String, f: FormField, last: bool): String {
    var c := if IsFile(f) then Delimiter(b) + DispositionLine(f) + ContentTypeLine(f) + ValueLine(f)
      else Delimiter(b) + DispositionLine(f) + ValueLine(f);
    (if last then c else c + Delimiter(b)) + ClosingDelimiter(b)
  }

  /** The chunks of the first `n` fields. */
  function ChunksUpTo(b: String, fields: seq<FormField>, n: nat): String
    requires n <= |fields|
  {
    if n == 0 then ""
    else ChunksUpTo(b, fields, n - 1) + FieldChunk(b, fields[n - 1], n - 1 == |fields| - 1)
  }

  function MultipartText(b: String, fields: seq<FormField>): String {
    ChunksUpTo(b, fields, |fields|)
  }

  /** `formatMultipartFormBody`; the appends of one field are collected in
      `chunk` before they go to `body`. */
  method FormatMultipartFormBody(headers: seq<Header>, fields: seq<FormField>) returns (body: String)
    ensures body == MultipartText(GetMultipartFormBoundary(headers), fields)
  {
    body := "";
    var boundary := GetMultipartFormBoundary(headers);
    var len := |fields| - 1;
    for idx := 0 to |fields|
      invariant body == ChunksUpTo(boundary, fields, idx)
    {
      var field := fields[idx];
      var chunk;
      if IsFile(field) {
        chunk := Delimiter(boundary);
        chunk := chunk + DispositionLine(field);
        chunk := chunk + ContentTypeLine(field);
        chunk := chunk + ValueLine(field);
        if idx != len {
          chunk := chunk + Delimiter(boundary);
        }
      } else {
        chunk := Delimiter(boundary);
        chunk := chunk + DispositionLine(field);
        chunk := chunk + ValueLine(field);
        if idx != len {
          chunk := chunk + Delimiter(boundary);
        }
      }
      chunk := chunk + ClosingDelimiter(boundary);
      body := body + chunk;
    }
  }

  lemma StartsWithExtend(s: String, t: String, pre: String)
    requires StartsWith(s, pre)
    ensures StartsWith(s + t, pre)
  {
    assert (s + t)[..|pre|] == s[..|pre|];
  }

  lemma EndsWithAppend(s: String, t: String)
    ensures EndsWith(s + t, t)
  {
    assert (s + t)[|s|..] == t;
  }

  /** A chunk opens with `--b` and the field's `Content-Disposition` line and
      closes with `--b--`; the value line is followed by a second delimiter
      exactly when the field is not the last. */
  lemma FieldChunkFraming(b: String, f: FormField, last: bool)
    ensures StartsWith(FieldChunk(b, f, last), Delimiter(b) + DispositionLine(f))
    ensures EndsWith(FieldChunk(b, f, last), ClosingDelimiter(b))
    ensures last ==> EndsWith(FieldChunk(b, f, last), ValueLine(f) + ClosingDelimiter(b))
    ensures !last ==> EndsWith(FieldChunk(b, f, last), ValueLine(f) + Delimiter(b) + ClosingDelimiter(b))
  {
    var open := Delimiter(b) + DispositionLine(f);
    var c0 := if IsFile(f) then open + ContentTypeLine(f) else open;
    assert StartsWith(open, open);
    StartsWithExtend(open, ContentTypeLine(f), open);
    var c := c0 + ValueLine(f);
    StartsWithExtend(c0, ValueLine(f), open);
    var c1 := if last then c else c + Delimiter(b);
    StartsWithExtend(c, Delimiter(b), open);
    StartsWithExtend(c1, ClosingDelimiter(b), open);
    EndsWithAppend(c1, ClosingDelimiter(b));
    if last {
      EndsWithAppend(c0, ValueLine(f));
      SuffixExtend(c, ValueLine(f), ClosingDelimiter(b));
    } else {
      EndsWithAppend(c0, ValueLine(f));
      SuffixExtend(c, ValueLine(f), Delimiter(b));
      SuffixExtend(c + Delimiter(b), ValueLine(f) + Delimiter(b), ClosingDelimiter(b));
    }
  }

  /** A suffix stays a suffix, grown by what is appended. */
  lemma SuffixExtend(s: String, suf: String, t: String)
    requires EndsWith(s, suf)
    ensures EndsWith(s + t, suf + t)
  {
    assert (s + t)[|s| - |suf|..] == s[|s| - |suf|..] + t;
  }

  /** The disposition line names the key; a file field's also names the file. */
  lemma DispositionNamesKey(f: FormField)
    ensures StartsWith(DispositionLine(f), "Content-Disposition: form-data; name=\"" + f.key + "\"")
    ensures IsFile(f) ==> EndsWith(DispositionLine(f), "; filename=\"" + FileNameText(f.file) + "\"\n")
  {
    var pre := "Content-Disposition: form-data; name=\"" + f.key + "\"";
    if IsFile(f) {
      assert DispositionLine(f) == pre + ("; filename=\"" + FileNameText(f.file) + "\"\n");
      EndsWithAppend(pre, "; filename=\"" + FileNameText(f.file) + "\"\n");
    } else {
      assert DispositionLine(f) == pre + "\n\n";
    }
    StartsWithExtend(pre, DispositionLine(f)[|pre|..], pre);
    assert pre + DispositionLine(f)[|pre|..] == DispositionLine(f);
  }

  /** No fields, no text; otherwise the text opens with the first field's
      delimiter and ends with the last field's value line and the closing
      delimiter. */
  lemma MultipartFraming(b: String, fields: seq<FormField>)
    ensures MultipartText(b, fields) == [] <==> fields == []
    ensures fields != [] ==> StartsWith(MultipartText(b, fields), Delimiter(b) + DispositionLine(fields[0]))
    ensures fields != [] ==> EndsWith(MultipartText(b, fields), ValueLine(fields[|fields| - 1]) + ClosingDelimiter(b))
  {
    if fields != [] {
      ChunksUpToStart(b, fields, |fields|);
      var n := |fields|;
      FieldChunkFraming(b, fields[n - 1], true);
      SuffixOfAppendEnd(ChunksUpTo(b, fields, n - 1), FieldChunk(b, fields[n - 1], true), ValueLine(fields[n - 1]) + ClosingDelimiter(b));
    }
  }

  lemma SuffixOfAppendEnd(s: String, t: String, suf: String)
    requires EndsWith(t, suf)
    ensures EndsWith(s + t, suf)
  {
    assert (s + t)[|s + t| - |suf|..] == t[|t| - |suf|..];
  }

  lemma {:induction false} ChunksUpToStart(b: String, fields: seq<FormField>, n: nat)
    requires 0 < n <= |fields|
    ensures StartsWith(ChunksUpTo(b, fields, n), Delimiter(b) + DispositionLine(fields[0]))
  {
    if n == 1 {
      FieldChunkFraming(b, fields[0], 0 == |fields| - 1);
      assert ChunksUpTo(b, fields, 1) == "" + FieldChunk(b, fields[0], 0 == |fields| - 1);
      assert "" + FieldChunk(b, fields[0], 0 == |fields| - 1) == FieldChunk(b, fields[0], 0 == |fields| - 1);
    } else {
      ChunksUpToStart(b, fields, n - 1);
      StartsWithExtend(ChunksUpTo(b, fields, n - 1), FieldChunk(b, fields[n - 1], n - 1 == |fields| - 1),
        Delimiter(b) + DispositionLine(fields[0]));
    }
  }

  // ---------------------------------------------------------------------------
  // build: the pieces of text it appends
  // ---------------------------------------------------------------------------

  /** The external formatter: the text and the parser asked for, and the
      formatted text or the message of the error it threw. */
  type Formatter = (String, FormatParser) -> Result<String>

  /** `acc` with `line(x)` appended for each `x` of `xs`, in order. */
  function AppendAll<T>(acc: String, xs: seq<T>, line: T -> String): String
    decreases |xs|
  {
    if xs == [] then acc else AppendAll(acc, xs[..|xs| - 1], line) + line(xs[|xs| - 1])
  }

  /** One loop of `build` over a list, each element giving one piece of text. */
  method AppendEach<T>(acc: String, xs: seq<T>, line: T -> String) returns (out: String)
    ensures out == AppendAll(acc, xs, line)
  {
    out := acc;
    for i := 0 to |xs|
      invariant out == AppendAll(acc, xs[..i], line)
    {
      assert xs[..i + 1][..i] == xs[..i];
      out := out + line(xs[i]);
    }
    assert xs[..|xs|] == xs;
  }

  function VariableLine(v: DocumentParser.Variable): String {
    "@" + v.key + " = " + v.value + "\n"
  }

  /** The separator line and the blank line after it; a non-empty separator
      text follows the `###` after one space. */
  function SeparatorLine(separatorText: Option<String>): String {
    "\n###" + (if DocumentParser.Truthy(separatorText) then " " + separatorText.value else "") + "\n\n"
  }

  function PreScriptLine(s: DocumentParser.Script): String {
    "< " + s.script + "\n"
  }

  function MetadataLine(m: DocumentParser.Metadata): String {
    "# @" + m.key + " " + m.value + "\n"
  }

  function PostScriptLine(s: DocumentParser.Script): String {
    "\n> " + s.script + "\n"
  }

  function RequestLine(r: Request): String {
    r.httpMethod + " " + r.url + " " + r.httpVersion + "\n"
  }

  const DefaultContentTypeLine: String := "Content-Type: multipart/form-data; boundary=" + DefaultBoundary + "\n"

  /** The key as written for the request's HTTP version: Pascal-Case for 1.0
      and 1.1, lower case for 2 and 3, as given otherwise. */
  function HeaderKey(key: String, version: String): String {
    if version == "HTTP/1.0" || version == "HTTP/1.1" then HeaderToPascalCase(key)
    else if version == "HTTP/2" || version == "HTTP/3" then ToLower(key)
    else key
  }

  function HeaderLine(h: Header, version: String): String {
    HeaderKey(h.key, version) + ": " + h.value + "\n"
  }

  function HeadersOut(acc: String, headers: seq<Header>, version: String): String
    decreases |headers|
  {
    if headers == [] then acc
    else HeadersOut(acc, headers[..|headers| - 1], version) + HeaderLine(headers[|headers| - 1], version)
  }

  // ---------------------------------------------------------------------------
  // build: the request body
  // ---------------------------------------------------------------------------

  /** The variables are formatted as JSON only when there are some. */
  function FormattedVariables(variables: Option<String>, fmt: Formatter): Result<String> {
    if DocumentParser.Truthy(variables) then fmt(variables.value, Json) else Ok("")
  }

  /** The GraphQL branch: protect the placeholders, split off the variables,
      format both parts, join them with a blank line and put the placeholders
      back. */
  function FormatGraphQL(body: String, fmt: Formatter): Result<String> {
    var p := Placeholders.Preserve(body);
    var split := SplitGraphQLBody(p.replacedBody);
    match fmt(split.query, GraphQL)
    case Err(m) => Err(m)
    case Ok(query) =>
      match FormattedVariables(split.variables, fmt)
      case Err(m) => Err(m)
      case Ok(variables) =>
        var joined := if variables != [] then Trim(query) + ("\n\n" + Trim(variables)) else Trim(query);
        Ok(Trim(Placeholders.RestoreAsWrittenFrom(joined, p.placeholders, 0)))
  }

  /** The JSON branch: protect the placeholders, format, put them back. */
  function FormatJson(body: String, fmt: Formatter): Result<String> {
    var p := Placeholders.Preserve(body);
    match fmt(p.replacedBody, Json)
    case Err(m) => Err(m)
    case Ok(formatted) => Ok(Trim(Placeholders.RestoreAsWrittenFrom(formatted, p.placeholders, 0)))
  }

  /** The body as `build` writes it: trimmed, formatted when asked and a parser
      applies, then laid out as a form when the content type is
      `application/x-www-form-urlencoded`. */
  function FormatBody(body: String, headers: seq<Header>, parser: Option<FormatParser>, formatBody: bool, fmt: Formatter): Result<String> {
    var trimmed := Trim(body);
    var formatted :=
      if !formatBody then Ok(trimmed)
      else if parser == Some(GraphQL) then FormatGraphQL(trimmed, fmt)
      else if parser == Some(Json) then FormatJson(trimmed, fmt)
      else Ok(trimmed);
    match formatted
    case Err(m) => Err(m)
    case Ok(b) =>
      Ok(if GetHeader(headers, "content-type") == Some("application/x-www-form-urlencoded") then FormatSimpleFormBody(b) else b)
  }

  method FormatRequestBody(body: String, headers: seq<Header>, parser: Option<FormatParser>, formatBody: bool, fmt: Formatter)
    returns (r: Result<String>)
    ensures r == FormatBody(body, headers, parser, formatBody, fmt)
  {
    var b := Trim(body);
    var contentType := GetHeader(headers, "content-type");
    if formatBody {
      if parser == Some(GraphQL) {
        var replacedBody, placeholders := Placeholders.PreservePlaceholders(b);
        var split := SplitGraphQLBody(replacedBody);
        var query := fmt(split.query, GraphQL);
        if query.Err? {
          return Err(query.message);
        }
        var formattedVariables := "";
        if DocumentParser.Truthy(split.variables) {
          var variables := fmt(split.variables.value, Json);
          if variables.Err? {
            return Err(variables.message);
          }
          formattedVariables := variables.value;
        }
        b := Trim(query.value);
        if formattedVariables != [] {
          b := b + ("\n\n" + Trim(formattedVariables));
        }
        var restored := Placeholders.RestorePlaceholdersAsWritten(b, placeholders);
        b := Trim(restored);
      } else if parser == Some(Json) {
        var replacedBody, placeholders := Placeholders.PreservePlaceholders(b);
        var formatted := fmt(replacedBody, Json);
        if formatted.Err? {
          return Err(formatted.message);
        }
        var restored := Placeholders.RestorePlaceholdersAsWritten(formatted.value, placeholders);
        b := Trim(restored);
      }
    }
    if contentType == Some("application/x-www-form-urlencoded") {
      b := FormatSimpleFormBody(b);
    }
    return Ok(b);
  }

  // ---------------------------------------------------------------------------
  // build: one block
  // ---------------------------------------------------------------------------

  /** The request part of a block: request line, default multipart content
      type, headers, body. */
  function RequestOut(acc: String, request: Request, parser: Option<FormatParser>, formatBody: bool, fmt: Formatter): Result<String> {
    var withLine := acc + RequestLine(request);
    var withType :=
      if !DocumentParser.Truthy(GetHeader(request.headers, "content-type")) && request.multipartFormData.Some?
      then withLine + DefaultContentTypeLine else withLine;
    var withHeaders := HeadersOut(withType, request.headers, request.httpVersion);
    if DocumentParser.Truthy(request.body) then
      match FormatBody(request.body.value, request.headers, parser, formatBody, fmt)
      case Err(m) => Err(m)
      case Ok(b) => Ok(withHeaders + ("\n" + b + "\n"))
    else Ok(withHeaders)
  }

  /** Separator, comments, pre-request scripts and metadata. */
  function HeadOut(acc: String, block: Block): String {
    var withSeparator := acc + SeparatorLine(block.separatorText);
    var withComments := AppendAll(withSeparator, block.comments, ReplaceCommentPrefix);
    var withScripts := AppendAll(withComments, block.preRequestScripts, PreScriptLine);
    AppendAll(withScripts, block.metadata, MetadataLine)
  }

  /** Multipart body, post-request scripts and response redirect. */
  function TailOut(acc: String, block: Block): String {
    var withMultipart :=
      if block.request.Some? && block.request.value.multipartFormData.Some? then
        acc + ("\n" + MultipartText(GetMultipartFormBoundary(block.request.value.headers), block.request.value.multipartFormData.value) + "\n")
      else acc;
    var withScripts := AppendAll(withMultipart, block.postRequestScripts, PostScriptLine);
    if DocumentParser.Truthy(block.responseRedirect) then withScripts + ("\n" + block.responseRedirect.value + "\n")
    else withScripts
  }

  function BlockOut(acc: String, block: Block, formatBody: bool, fmt: Formatter): Result<String> {
    var head := HeadOut(acc, block);
    var withRequest :=
      if block.request.Some? then RequestOut(head, block.request.value, GetFormatParser(block), formatBody, fmt)
      else Ok(head);
    match withRequest
    case Err(m) => Err(m)
    case Ok(o) => Ok(TailOut(o, block))
  }

  /** The header loop of `build`: one line per header, in order. */
  method EmitHeaders(acc: String, headers: seq<Header>, version: String) returns (out: String)
    ensures out == HeadersOut(acc, headers, version)
  {
    out := acc;
    for i := 0 to |headers|
      invariant out == HeadersOut(acc, headers[..i], version)
    {
      assert headers[..i + 1][..i] == headers[..i];
      out := out + HeaderLine(headers[i], version);
    }
    assert headers[..|headers|] == headers;
  }

  method EmitRequest(acc: String, request: Request, parser: Option<FormatParser>, formatBody: bool, fmt: Formatter)
    returns (r: Result<String>)
    ensures r == RequestOut(acc, request, parser, formatBody, fmt)
  {
    var contentType := GetHeader(request.headers, "content-type");
    var output := acc + RequestLine(request);
    if !DocumentParser.Truthy(contentType) && request.multipartFormData.Some? {
      output := output + DefaultContentTypeLine;
    }
    output := EmitHeaders(output, request.headers, request.httpVersion);
    if DocumentParser.Truthy(request.body) {
      var body := FormatRequestBody(request.body.value, request.headers, parser, formatBody, fmt);
      if body.Err? {
        return Err(body.message);
      }
      output := output + ("\n" + body.value + "\n");
    }
    return Ok(output);
  }

  method EmitBlock(acc: String, block: Block, formatBody: bool, fmt: Formatter) returns (r: Result<String>)
    ensures r == BlockOut(acc, block, formatBody, fmt)
  {
    var output := acc + SeparatorLine(block.separatorText);
    output := AppendEach(output, block.comments, ReplaceCommentPrefix);
    output := AppendEach(output, block.preRequestScripts, PreScriptLine);
    output := AppendEach(output, block.metadata, MetadataLine);
    if block.request.Some? {
      var withRequest := EmitRequest(output, block.request.value, GetFormatParser(block), formatBody, fmt);
      if withRequest.Err? {
        return Err(withRequest.message);
      }
      output := withRequest.value;
    }
    if block.request.Some? && block.request.value.multipartFormData.Some? {
      var body := FormatMultipartFormBody(block.request.value.headers, block.request.value.multipartFormData.value);
      output := output + ("\n" + body + "\n");
    }
    output := AppendEach(output, block.postRequestScripts, PostScriptLine);
    if DocumentParser.Truthy(block.responseRedirect) {
      output := output + ("\n" + block.responseRedirect.value + "\n");
    }
    return Ok(output);
  }

  // ---------------------------------------------------------------------------
  // build: the document
  // ---------------------------------------------------------------------------

  /** The blocks one after the other; the first formatter error ends the build. */
  function BlocksOut(acc: String, blocks: seq<Block>, formatBody: bool, fmt: Formatter): Result<String>
    decreases |blocks|
  {
    if blocks == [] then Ok(acc)
    else
      match BlocksOut(acc, blocks[..|blocks| - 1], formatBody, fmt)
      case Err(m) => Err(m)
      case Ok(o) => BlockOut(o, blocks[|blocks| - 1], formatBody, fmt)
  }

  function VariablesOut(variables: seq<DocumentParser.Variable>): String {
    AppendAll("", variables, VariableLine) + "\n"
  }

  /** `build`: the text of the document, trimmed and ending in one newline, or
      the formatter's error. */
  function BuildText(doc: Document, formatBody: bool, fmt: Formatter): (r: Result<String>)
    ensures r.Ok? ==> EndsWith(r.value, "\n")
    ensures r.Ok? ==> |r.value| == 1 || (!IsSpace(r.value[0]) && !IsSpace(r.value[|r.value| - 2]))
  {
    match BlocksOut(VariablesOut(doc.variables), doc.blocks, formatBody, fmt)
    case Err(m) => Err(m)
    case Ok(o) => Ok(Trim(o) + "\n")
  }

  /** Once a prefix of the blocks has failed, the whole build has failed with
      the same message. */
  lemma {:induction false} BlocksOutErrSticks(acc: String, blocks: seq<Block>, i: nat, formatBody: bool, fmt: Formatter)
    requires i <= |blocks|
    requires BlocksOut(acc, blocks[..i], formatBody, fmt).Err?
    ensures BlocksOut(acc, blocks, formatBody, fmt) == BlocksOut(acc, blocks[..i], formatBody, fmt)
    decreases |blocks| - i
  {
    if i < |blocks| {
      assert blocks[..i + 1][..i] == blocks[..i];
      BlocksOutErrSticks(acc, blocks, i + 1, formatBody, fmt);
    } else {
      assert blocks[..i] == blocks;
    }
  }

  /** The loop of `build` over the blocks. */
  method EmitBlocks(start: String, blocks: seq<Block>, formatBody: bool, fmt: Formatter) returns (r: Result<String>)
    ensures r == BlocksOut(start, blocks, formatBody, fmt)
  {
    var output := start;
    for i := 0 to |blocks|
      invariant BlocksOut(start, blocks[..i], formatBody, fmt) == Ok(output)
    {
      assert blocks[..i + 1][..i] == blocks[..i];
      var next := EmitBlock(output, blocks[i], formatBody, fmt);
      if next.Err? {
        BlocksOutErrSticks(start, blocks, i + 1, formatBody, fmt);
        return Err(next.message);
      }
      output := next.value;
    }
    assert blocks[..|blocks|] == blocks;
    return Ok(output);
  }

  method Build(doc: Document, formatBody: bool, fmt: Formatter) returns (r: Result<String>)
    ensures r == BuildText(doc, formatBody, fmt)
  {
    var output := AppendEach("", doc.variables, VariableLine);
    output := output + "\n";
    var blocks := EmitBlocks(output, doc.blocks, formatBody, fmt);
    if blocks.Err? {
      return Err(blocks.message);
    }
    output := blocks.value;
    return Ok(Trim(output) + "\n");
  }


  // ---------------------------------------------------------------------------
  // build: properties
  // ---------------------------------------------------------------------------

  /** A formatter that never throws. */
  ghost predicate NeverFails(fmt: Formatter) {
    forall s, p :: fmt(s, p).Ok?
  }

  lemma {:induction false} BlocksOutOk(acc: String, blocks: seq<Block>, formatBody: bool, fmt: Formatter)
    requires !formatBody || NeverFails(fmt)
    ensures BlocksOut(acc, blocks, formatBody, fmt).Ok?
    decreases |blocks|
  {
    if blocks != [] {
      BlocksOutOk(acc, blocks[..|blocks| - 1], formatBody, fmt);
    }
  }

  /** Without body formatting, or with a formatter that never throws, `build`
      always produces text: the exit path is reached only through the
      formatter. */
  lemma BuildSucceeds(doc: Document, formatBody: bool, fmt: Formatter)
    requires !formatBody || NeverFails(fmt)
    ensures BuildText(doc, formatBody, fmt).Ok?
  {
    BlocksOutOk(VariablesOut(doc.variables), doc.blocks, formatBody, fmt);
  }

  lemma StartsWithTrans(s: String, t: String, p: String)
    requires StartsWith(s, t) && StartsWith(t, p)
    ensures StartsWith(s, p)
  {
    assert s[..|p|] == t[..|p|];
  }

  lemma {:induction false} AppendAllExtends<T>(acc: String, xs: seq<T>, line: T -> String)
    ensures StartsWith(AppendAll(acc, xs, line), acc)
    decreases |xs|
  {
    if xs != [] {
      AppendAllExtends(acc, xs[..|xs| - 1], line);
      StartsWithExtend(AppendAll(acc, xs[..|xs| - 1], line), line(xs[|xs| - 1]), acc);
    }
  }

  /** The first element's piece comes right after what was there before. */
  lemma {:induction false} AppendAllFirst<T>(acc: String, xs: seq<T>, line: T -> String)
    requires xs != []
    ensures StartsWith(AppendAll(acc, xs, line), acc + line(xs[0]))
    decreases |xs|
  {
    if |xs| == 1 {
      assert xs[..0] == [];
    } else {
      AppendAllFirst(acc, xs[..|xs| - 1], line);
      StartsWithExtend(AppendAll(acc, xs[..|xs| - 1], line), line(xs[|xs| - 1]), acc + line(xs[0]));
    }
  }

  lemma {:induction false} HeadersOutExtends(acc: String, headers: seq<Header>, version: String)
    ensures StartsWith(HeadersOut(acc, headers, version), acc)
    decreases |headers|
  {
    if headers != [] {
      HeadersOutExtends(acc, headers[..|headers| - 1], version);
      StartsWithExtend(HeadersOut(acc, headers[..|headers| - 1], version), HeaderLine(headers[|headers| - 1], version), acc);
    }
  }

  lemma HeadOutOpens(acc: String, block: Block)
    ensures StartsWith(HeadOut(acc, block), acc + SeparatorLine(block.separatorText))
  {
    var s := acc + SeparatorLine(block.separatorText);
    var c := AppendAll(s, block.comments, ReplaceCommentPrefix);
    var p := AppendAll(c, block.preRequestScripts, PreScriptLine);
    AppendAllExtends(s, block.comments, ReplaceCommentPrefix);
    AppendAllExtends(c, block.preRequestScripts, PreScriptLine);
    AppendAllExtends(p, block.metadata, MetadataLine);
    StartsWithTrans(p, c, s);
    StartsWithTrans(HeadOut(acc, block), p, s);
  }

  lemma RequestOutOpens(acc: String, request: Request, parser: Option<FormatParser>, formatBody: bool, fmt: Formatter)
    requires RequestOut(acc, request, parser, formatBody, fmt).Ok?
    ensures StartsWith(RequestOut(acc, request, parser, formatBody, fmt).value, acc + RequestLine(request))
  {
    var withLine := acc + RequestLine(request);
    var withType :=
      if !DocumentParser.Truthy(GetHeader(request.headers, "content-type")) && request.multipartFormData.Some?
      then withLine + DefaultContentTypeLine else withLine;
    var withHeaders := HeadersOut(withType, request.headers, request.httpVersion);
    assert StartsWith(withLine + DefaultContentTypeLine, withLine);
    HeadersOutExtends(withType, request.headers, request.httpVersion);
    StartsWithTrans(withHeaders, withType, withLine);
    if DocumentParser.Truthy(request.body) {
      var b := FormatBody(request.body.value, request.headers, parser, formatBody, fmt).value;
      StartsWithExtend(withHeaders, "\n" + b + "\n", withLine);
    }
  }

  /** A block ends with its redirect when it has one, and otherwise its tail
      only appends. */
  lemma TailOutFraming(acc: String, block: Block)
    ensures StartsWith(TailOut(acc, block), acc)
    ensures DocumentParser.Truthy(block.responseRedirect) ==>
      EndsWith(TailOut(acc, block), "\n" + block.responseRedirect.value + "\n")
  {
    var withMultipart :=
      if block.request.Some? && block.request.value.multipartFormData.Some? then
        acc + ("\n" + MultipartText(GetMultipartFormBoundary(block.request.value.headers), block.request.value.multipartFormData.value) + "\n")
      else acc;
    assert StartsWith(withMultipart, acc);
    var withScripts := AppendAll(withMultipart, block.postRequestScripts, PostScriptLine);
    AppendAllExtends(withMultipart, block.postRequestScripts, PostScriptLine);
    StartsWithTrans(withScripts, withMultipart, acc);
    if DocumentParser.Truthy(block.responseRedirect) {
      var r := "\n" + block.responseRedirect.value + "\n";
      StartsWithExtend(withScripts, r, acc);
      EndsWithAppend(withScripts, r);
    }
  }

  /** Each block opens with its separator line and, when it has a request,
      writes the request line right after its comments, scripts and metadata;
      it closes with its redirect when it has one. */
  lemma BlockOutFraming(acc: String, block: Block, formatBody: bool, fmt: Formatter)
    requires BlockOut(acc, block, formatBody, fmt).Ok?
    ensures StartsWith(BlockOut(acc, block, formatBody, fmt).value, acc + SeparatorLine(block.separatorText))
    ensures block.request.Some? ==>
      StartsWith(BlockOut(acc, block, formatBody, fmt).value, HeadOut(acc, block) + RequestLine(block.request.value))
    ensures DocumentParser.Truthy(block.responseRedirect) ==>
      EndsWith(BlockOut(acc, block, formatBody, fmt).value, "\n" + block.responseRedirect.value + "\n")
  {
    var head := HeadOut(acc, block);
    HeadOutOpens(acc, block);
    var o := head;
    if block.request.Some? {
      o := RequestOut(head, block.request.value, GetFormatParser(block), formatBody, fmt).value;
      RequestOutOpens(head, block.request.value, GetFormatParser(block), formatBody, fmt);
      assert StartsWith(head + RequestLine(block.request.value), head);
      StartsWithTrans(o, head + RequestLine(block.request.value), head);
    }
    TailOutFraming(o, block);
    StartsWithTrans(TailOut(o, block), o, head);
    StartsWithTrans(TailOut(o, block), head, acc + SeparatorLine(block.separatorText));
    if block.request.Some? {
      StartsWithTrans(TailOut(o, block), o, head + RequestLine(block.request.value));
    }
  }

  /** The blocks only append, and the first of them opens with `\n###`. */
  lemma {:induction false} BlocksOutOpens(acc: String, blocks: seq<Block>, formatBody: bool, fmt: Formatter)
    requires BlocksOut(acc, blocks, formatBody, fmt).Ok?
    ensures StartsWith(BlocksOut(acc, blocks, formatBody, fmt).value, acc)
    ensures blocks != [] ==> StartsWith(BlocksOut(acc, blocks, formatBody, fmt).value, acc + "\n###")
    decreases |blocks|
  {
    if blocks != [] {
      var init := blocks[..|blocks| - 1];
      var last := blocks[|blocks| - 1];
      BlocksOutOpens(acc, init, formatBody, fmt);
      var o := BlocksOut(acc, init, formatBody, fmt).value;
      var r := BlockOut(o, last, formatBody, fmt).value;
      BlockOutFraming(o, last, formatBody, fmt);
      var sep := SeparatorLine(last.separatorText);
      assert StartsWith(o + sep, o);
      StartsWithTrans(r, o + sep, o);
      StartsWithTrans(r, o, acc);
      if init == [] {
        assert StartsWith(o + sep, acc + "\n###");
        StartsWithTrans(r, o + sep, acc + "\n###");
      } else {
        StartsWithTrans(r, o, acc + "\n###");
      }
    }
  }

  /** The variable lines open with the first variable's `@`. */
  lemma VariablesOpen(variables: seq<DocumentParser.Variable>)
    requires variables != []
    ensures AppendAll("", variables, VariableLine)[0] == '@'
  {
    AppendAllFirst("", variables, VariableLine);
    assert ("" + VariableLine(variables[0]))[0] == '@';
  }

  lemma SeparatorAfter(v: String)
    ensures v + "\n" + "\n###" == v + "\n\n###"
    ensures v == [] ==> v + "\n" + "\n###" == "\n\n" + "###"
  {
  }

  /** The document text opens with the variable lines and then the first
      separator after one blank line, or with the first separator when there
      are no variables. */
  lemma BuildOpens(doc: Document, formatBody: bool, fmt: Formatter)
    requires doc.blocks != []
    requires BuildText(doc, formatBody, fmt).Ok?
    ensures doc.variables != [] ==>
      StartsWith(BuildText(doc, formatBody, fmt).value, AppendAll("", doc.variables, VariableLine) + "\n\n###")
    ensures doc.variables == [] ==> StartsWith(BuildText(doc, formatBody, fmt).value, "###")
  {
    var v := AppendAll("", doc.variables, VariableLine);
    var start := VariablesOut(doc.variables);
    var o := BlocksOut(start, doc.blocks, formatBody, fmt).value;
    BlocksOutOpens(start, doc.blocks, formatBody, fmt);
    var p := if doc.variables != [] then v + "\n\n###" else "###";
    if doc.variables != [] {
      VariablesOpen(doc.variables);
      SeparatorAfter(v);
      TrimOpensWith(o, p);
    } else {
      SeparatorAfter(v);
      assert v == [];
      TrimOpens(o, "\n\n", p);
    }
    StartsWithExtend(Trim(o), "\n", p);
  }

  // ---------------------------------------------------------------------------
  // build: header lines
  // ---------------------------------------------------------------------------

  /** `r` is `s` with some ASCII letters changed in case and nothing else. */
  ghost predicate CaseMapped(s: String, r: String) {
    |r| == |s| && forall i :: 0 <= i < |s| ==> (r[i] == s[i] || r[i] == Upper(s[i]) || r[i] == Lower(s[i]))
  }

  /** The written key differs from the stored key only in case: Pascal-Case for
      HTTP/1.0 and HTTP/1.1, no upper-case letter for HTTP/2 and HTTP/3, the key
      itself for any other version. */
  lemma HeaderKeyCasing(key: String, version: String)
    ensures ToLower(HeaderKey(key, version)) == ToLower(key)
    ensures CaseMapped(key, HeaderKey(key, version))
    ensures version == "HTTP/1.0" || version == "HTTP/1.1" ==> PascalOf(key, HeaderKey(key, version))
    ensures version == "HTTP/2" || version == "HTTP/3" ==>
      forall i :: 0 <= i < |key| ==> !('A' <= HeaderKey(key, version)[i] <= 'Z')
    ensures version !in {"HTTP/1.0", "HTTP/1.1", "HTTP/2", "HTTP/3"} ==> HeaderKey(key, version) == key
  {
    var k := HeaderKey(key, version);
    if version == "HTTP/1.0" || version == "HTTP/1.1" {
      PascalCaseSpec(key);
      PascalCaseShape(key);
      assert forall i :: 0 <= i < |key| ==> k[i] == (if i == 0 || key[i - 1] == '-' then Upper(key[i]) else key[i]);
    } else if version == "HTTP/2" || version == "HTTP/3" {
      assert forall i :: 0 <= i < |key| ==> ToLower(k)[i] == ToLower(key)[i];
    }
  }

  lemma CaseMappedKeeps(s: String, r: String)
    requires CaseMapped(s, r)
    ensures ':' in r <==> ':' in s
    ensures forall i :: 0 <= i < |s| ==> (IsSpace(r[i]) <==> IsSpace(s[i]))
  {
    if ':' in r {
      var i :| 0 <= i < |r| && r[i] == ':';
      assert s[i] == ':';
    }
    if ':' in s {
      var i :| 0 <= i < |s| && s[i] == ':';
      assert r[i] == ':';
    }
  }

  lemma ColonLine(k: String, v: String)
    ensures k + ": " + v + "\n" == k + [':'] + ([' '] + v + ['\n'])
  {
  }

  /** `key: value` on its own line splits back into the key and the value when
      neither has whitespace around it and the key has no colon. */
  lemma SplitHeaderLine(k: String, v: String)
    requires ':' !in k
    requires Trim(k) == k && Trim(v) == v
    ensures DocumentParser.SplitHeader(k + ": " + v + "\n") == DocumentParser.Header(k, v)
  {
    var rest := [' '] + v + ['\n'];
    var text := k + ": " + v + "\n";
    ColonLine(k, v);
    FirstIndexAfter(k, ':', rest);
    DocumentParser.SplitHeaderAtFirstColon(text);
    assert text[..|k|] == k;
    assert text[|k| + 1..] == rest;
    TrimPadded(v, ' ', '\n');
  }

  /** A header line reads back, through the parser's header split, as the
      header it was written from, with the key as cased for the version. */
  lemma HeaderLineRoundTrip(h: Header, version: String)
    requires ':' !in h.key
    requires Trim(h.key) == h.key && Trim(h.value) == h.value
    ensures DocumentParser.SplitHeader(HeaderLine(h, version)) == DocumentParser.Header(HeaderKey(h.key, version), h.value)
  {
    var k := HeaderKey(h.key, version);
    HeaderKeyCasing(h.key, version);
    CaseMappedKeeps(h.key, k);
    if k != [] {
      assert !IsSpace(h.key[0]) && !IsSpace(h.key[|h.key| - 1]);
    }
    TrimOfTrimmed(k);
    SplitHeaderLine(k, h.value);
  }

  // ---------------------------------------------------------------------------
  // build: the JSON branch
  // ---------------------------------------------------------------------------

  /** When the formatter leaves the protected text as it is, the JSON branch
      gives back a body with at most one placeholder, its placeholder in place. */
  lemma FormatJsonKeepsBody(body: String, fmt: Formatter)
    requires Trim(body) == body
    requires !Contains(body, Placeholders.Marker) && Placeholders.NoPair(body)
    requires |Placeholders.Preserve(body).placeholders| <= 1
    requires fmt(Placeholders.Preserve(body).replacedBody, Json) == Ok(Placeholders.Preserve(body).replacedBody)
    ensures FormatJson(body, fmt) == Ok(body)
  {
    if |Placeholders.Preserve(body).placeholders| == 1 {
      Placeholders.RestoreOfPreserveSingle(body);
    } else {
      Placeholders.ProtectNoOriginals(body, 0, 0);
      Placeholders.RemovePairsOfNoPair(body);
    }
  }

  /** With two placeholders and a formatter that changes nothing, the JSON
      branch leaves quotes behind around the text between them. */
  lemma FormatJsonLosesQuotes(fmt: Formatter)
    requires forall s :: fmt(s, Json) == Ok(s)
    ensures FormatJson(Placeholders.TwoPlaceholders, fmt) == Ok("[{{a}}\", \"{{b}}]")
  {
    Placeholders.AsWrittenLosesQuotes();
    TrimOfTrimmed("[{{a}}\", \"{{b}}]");
  }
}
