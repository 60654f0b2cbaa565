/** The mapping from the syntax tree of a `.http` document to the `Document`
    model (src/main/parser/DocumentParser.ts). The grammar that builds the tree
    is not modelled: `Parse` takes the tree itself. */
module DocumentParser {
  import opened Wrappers
  import opened Strings

  /** A syntax-tree node: its type tag, its text span, its children and its own
      error flag. */
  datatype Node = Node(kind: String, text: String, children: seq<Node>, hasError: bool)

  datatype Header = Header(key: String, value: String)

  datatype FieldType = TextField | FileField

  datatype FileInfo = FileInfo(fileName: String, contentType: String)

  /** A multipart field; `fieldType` and `file` are the optional `type` and `file`. */
  datatype FormField = FormField(key: String, value: String, fieldType: Option<FieldType>, file: Option<FileInfo>)

  datatype Request = Request(
    httpMethod: String,
    url: String,
    httpVersion: String,
    headers: seq<Header>,
    body: Option<String>,
    multipartFormData: Option<seq<FormField>>)

  datatype Metadata = Metadata(key: String, value: String)

  datatype Script = Script(script: String, inline: bool)

  datatype Variable = Variable(key: String, value: String)

  /** `separatorText` is `requestSeparator.text`. */
  datatype Block = Block(
    separatorText: Option<String>,
    metadata: seq<Metadata>,
    comments: seq<String>,
    request: Option<Request>,
    preRequestScripts: seq<Script>,
    postRequestScripts: seq<Script>,
    responseRedirect: Option<String>)

  datatype Document = Document(variables: seq<Variable>, blocks: seq<Block>)

  // ---------------------------------------------------------------------------
  // Tree walks
  // ---------------------------------------------------------------------------

  /** The nodes `traverseNodes` visits, in the order it visits them: the node,
      then each child's subtree in turn. */
  function Preorder(n: Node): (r: seq<Node>)
    ensures |r| >= 1 && r[0] == n
    decreases n, 1
  {
    [n] + PreorderAll(n.children)
  }

  function PreorderAll(ns: seq<Node>): seq<Node>
    decreases ns, 0
  {
    if ns == [] then [] else Preorder(ns[0]) + PreorderAll(ns[1..])
  }

  predicate SomeError(ns: seq<Node>) {
    exists i :: 0 <= i < |ns| && ns[i].hasError
  }

  /** `documentHasErrors`: a depth-first walk that stops at the first node whose
      error flag is set. It finds one exactly when some node of the tree, the
      root included, has its flag set. */
  function HasErrors(n: Node): (r: bool)
    ensures r <==> SomeError(Preorder(n))
    decreases n, 1
  {
    var r := n.hasError || AnyHasErrors(n.children);
    assert Preorder(n) == [n] + PreorderAll(n.children);
    assert SomeError(PreorderAll(n.children)) ==> SomeError(Preorder(n)) by {
      if SomeError(PreorderAll(n.children)) {
        var i :| 0 <= i < |PreorderAll(n.children)| && PreorderAll(n.children)[i].hasError;
        assert Preorder(n)[i + 1] == PreorderAll(n.children)[i];
      }
    }
    r
  }

  function AnyHasErrors(ns: seq<Node>): (r: bool)
    ensures r <==> SomeError(PreorderAll(ns))
    decreases ns, 0
  {
    if ns == [] then false
    else
      var r := HasErrors(ns[0]) || AnyHasErrors(ns[1..]);
      var head, tail := Preorder(ns[0]), PreorderAll(ns[1..]);
      assert PreorderAll(ns) == head + tail;
      assert SomeError(head) ==> SomeError(head + tail) by {
        if SomeError(head) {
          var i :| 0 <= i < |head| && head[i].hasError;
          assert (head + tail)[i] == head[i];
        }
      }
      assert SomeError(tail) ==> SomeError(head + tail) by {
        if SomeError(tail) {
          var i :| 0 <= i < |tail| && tail[i].hasError;
          assert (head + tail)[|head| + i] == tail[i];
        }
      }
      assert SomeError(head + tail) ==> SomeError(head) || SomeError(tail) by {
        if SomeError(head + tail) {
          var i :| 0 <= i < |head + tail| && (head + tail)[i].hasError;
          if i < |head| { assert head[i].hasError; } else { assert tail[i - |head|].hasError; }
        }
      }
      r
  }

  lemma {:induction false} PreorderAllAppend(a: seq<Node>, b: seq<Node>)
    ensures PreorderAll(a + b) == PreorderAll(a) + PreorderAll(b)
  {
    if a == [] {
      assert a + b == b;
    } else {
      assert (a + b)[0] == a[0] && (a + b)[1..] == a[1..] + b;
      PreorderAllAppend(a[1..], b);
    }
  }

  lemma PreorderAllSnoc(ns: seq<Node>, i: nat)
    requires i < |ns|
    ensures PreorderAll(ns[..i + 1]) == PreorderAll(ns[..i]) + Preorder(ns[i])
  {
    assert ns[..i + 1] == ns[..i] + [ns[i]];
    PreorderAllAppend(ns[..i], [ns[i]]);
    assert [ns[i]][1..] == [];
  }

  /** Every node of a child's subtree is visited. */
  lemma {:induction false} PreorderOfChild(n: Node, i: nat, m: Node)
    requires i < |n.children| && m in Preorder(n.children[i])
    ensures m in Preorder(n)
  {
    var cs := n.children;
    assert cs == cs[..i] + [cs[i]] + cs[i + 1..];
    PreorderAllAppend(cs[..i] + [cs[i]], cs[i + 1..]);
    PreorderAllSnoc(cs, i);
    assert cs[..i + 1] == cs[..i] + [cs[i]];
  }

  // ---------------------------------------------------------------------------
  // formatUrl
  // ---------------------------------------------------------------------------

  /** `formatUrl`: the query string (the text between the first and the second
      `?`) laid out one `&`-parameter per indented line, blank lines collapsed;
      a URL without `?` is returned as it is. */
  function FormatUrl(url: String): String {
    var parts := Split(url, '?');
    if |parts| == 1 then parts[0]
    else CollapseBlankLines(parts[0] + "?" + Join(Split(parts[1], '&'), "\n  &"))
  }

  /** The query string as `formatUrl` sees it: between the first `?` and the next. */
  function QueryOf(url: String): String
    requires '?' in url
  {
    var rest := url[FirstIndex(url, '?') + 1..];
    rest[..FirstIndex(rest, '?')]
  }

  lemma {:induction false} FormatUrlWithoutQuery(url: String)
    requires '?' !in url
    ensures FormatUrl(url) == url
  {
    SplitNone(url, '?');
  }

  lemma {:induction false} RemoveSpacesJoin(parts: seq<String>, gap: String)
    requires forall k :: 0 <= k < |gap| ==> IsSpace(gap[k])
    ensures RemoveSpaces(Join(parts, gap + "&")) == RemoveSpaces(Join(parts, "&"))
  {
    if |parts| > 1 {
      RemoveSpacesJoin(parts[1..], gap);
      var j, j' := Join(parts[1..], gap + "&"), Join(parts[1..], "&");
      assert Join(parts, gap + "&") == parts[0] + gap + ("&" + j);
      assert Join(parts, "&") == parts[0] + ("&" + j');
      RemoveGapAmp(parts[0], gap, j);
      assert parts[0] + [] == parts[0];
      RemoveGapAmp(parts[0], [], j');
    }
  }

  /** Spaces before an `&` vanish with the other whitespace. */
  lemma RemoveGapAmp(p: String, gap: String, j: String)
    requires forall k :: 0 <= k < |gap| ==> IsSpace(gap[k])
    ensures RemoveSpaces(p + gap + ("&" + j)) == RemoveSpaces(p) + ("&" + RemoveSpaces(j))
  {
    var a := RemoveSpaces(p);
    RemoveSpacesAppend(p, gap);
    RemoveSpacesOfSpaces(gap);
    assert RemoveSpaces(p + gap) == a + [] == a;
    RemoveSpacesAppend("&", j);
    RemoveSpacesAmp();
    RemoveSpacesAppend(p + gap, "&" + j);
  }

  lemma RemoveSpacesAmp()
    ensures RemoveSpaces("&") == "&"
  {
    assert "&"[1..] == [];
  }

  lemma {:induction false} QueryParts(url: String)
    requires '?' in url
    ensures |Split(url, '?')| > 1
    ensures Split(url, '?')[0] == url[..FirstIndex(url, '?')]
    ensures Split(url, '?')[1] == QueryOf(url)
  {
    var i := FirstIndex(url, '?');
    SplitHead(url, '?');
    SplitTail(url, '?');
    SplitHead(url[i + 1..], '?');
  }

  /** Apart from whitespace, the formatted URL is the base, the `?` and the query
      string: layout only, except that anything from a second `?` on is gone. */
  lemma {:induction false} FormatUrlKeepsContent(url: String)
    requires '?' in url
    ensures RemoveSpaces(FormatUrl(url))
         == RemoveSpaces(url[..FirstIndex(url, '?')] + "?" + QueryOf(url))
  {
    QueryParts(url);
    var base, query := url[..FirstIndex(url, '?')], QueryOf(url);
    var laid := Join(Split(query, '&'), "\n  &");
    CollapseKeepsContent(base + "?" + laid);
    assert "\n  &" == "\n  " + "&";
    RemoveSpacesJoin(Split(query, '&'), "\n  ");
    RemoveSpacesAppend(base + "?", laid);
    RemoveSpacesAppend(base + "?", query);
  }

  /** The formatted URL has no blank line. */
  lemma {:induction false} FormatUrlNoBlankLine(url: String)
    requires '?' in url
    ensures NoBlankLine(FormatUrl(url))
  {
    QueryParts(url);
    var base, query := url[..FirstIndex(url, '?')], QueryOf(url);
    CollapseLeavesNoBlankLine(base + "?" + Join(Split(query, '&'), "\n  &"));
  }

  lemma {:induction false} NoBlankLineAppend(a: String, b: String)
    requires forall i :: 0 <= i < |a| ==> !BlankLineAt((a + b)[i..])
    requires NoBlankLine(b)
    ensures NoBlankLine(a + b)
  {
    forall i | 0 <= i < |a + b| ensures !BlankLineAt((a + b)[i..]) {
      if i >= |a| {
        assert (a + b)[i..] == b[i - |a|..];
      }
    }
  }

  /** Parameters without whitespace, one per indented line, leave no blank line. */
  lemma {:induction false} UrlLayoutNoBlankLine(parts: seq<String>)
    requires forall k :: 0 <= k < |parts| ==> NoSpace(parts[k])
    ensures NoBlankLine(Join(parts, "\n  &"))
  {
    if |parts| == 1 {
      assert Join(parts, "\n  &") == parts[0];
    } else if |parts| > 1 {
      UrlLayoutNoBlankLine(parts[1..]);
      var p, j := parts[0], Join(parts[1..], "\n  &");
      var a := p + "\n  &";
      assert Join(parts, "\n  &") == a + j;
      forall i | 0 <= i < |a| ensures !BlankLineAt((a + j)[i..]) {
        if i == |p| {
          NoBlankAtHead((a + j)[i..], 3);
        } else {
          assert (a + j)[i..][0] == (a + j)[i] != '\n';
        }
      }
      NoBlankLineAppend(a, j);
    }
  }

  lemma {:induction false} NoSpaceSlice(s: String, i: nat, j: nat)
    requires NoSpace(s) && i <= j <= |s|
    ensures NoSpace(s[i..j])
  {
    assert forall k :: 0 <= k < j - i ==> s[i..j][k] == s[i + k];
  }

  /** For a URL without whitespace the layout is exact: base, `?`, and the query
      string with each `&` moved to the start of an indented line. */
  lemma {:induction false} FormatUrlLayout(url: String)
    requires '?' in url && NoSpace(url)
    ensures FormatUrl(url)
         == url[..FirstIndex(url, '?')] + "?" + Join(Split(QueryOf(url), '&'), "\n  &")
  {
    QueryParts(url);
    var i := FirstIndex(url, '?');
    var base, query := url[..i], QueryOf(url);
    var rest := url[i + 1..];
    NoSpaceSlice(url, 0, i);
    NoSpaceSlice(url, i + 1, |url|);
    NoSpaceSlice(rest, 0, FirstIndex(rest, '?'));
    var parts := Split(query, '&');
    forall k | 0 <= k < |parts| ensures NoSpace(parts[k]) {
      SplitPartNoSpace(query, '&', k);
    }
    UrlLayoutNoBlankLine(parts);
    var j := Join(parts, "\n  &");
    var a := base + "?";
    forall m | 0 <= m < |a| ensures !BlankLineAt((a + j)[m..]) {
      assert (a + j)[m..][0] == (a + j)[m] != '\n';
    }
    NoBlankLineAppend(a, j);
    CollapseWithoutBlankLines(a + j);
  }

  lemma {:induction false} SplitPartNoSpace(s: String, c: char, k: nat)
    requires NoSpace(s) && k < |Split(s, c)|
    ensures NoSpace(Split(s, c)[k])
    decreases |s|
  {
    if s != [] {
      var rest := Split(s[1..], c);
      NoSpaceSlice(s, 1, |s|);
      if s[0] == c {
        if k > 0 { SplitPartNoSpace(s[1..], c, k - 1); }
      } else if k == 0 {
        SplitPartNoSpace(s[1..], c, 0);
      } else {
        SplitPartNoSpace(s[1..], c, k);
      }
    }
  }

  // ---------------------------------------------------------------------------
  // Headers
  // ---------------------------------------------------------------------------

  /** A `header` node's text cut at its first colon, both sides trimmed; later
      colons stay in the value. */
  function SplitHeader(text: String): Header {
    var parts := Split(text, ':');
    Header(Trim(parts[0]), Trim(Join(parts[1..], [':'])))
  }

  lemma {:induction false} SplitHeaderAtFirstColon(text: String)
    ensures ':' in text ==>
      var i := FirstIndex(text, ':');
      SplitHeader(text) == Header(Trim(text[..i]), Trim(text[i + 1..]))
    ensures ':' !in text ==> SplitHeader(text) == Header(Trim(text), [])
  {
    SplitHead(text, ':');
    if ':' !in text {
      SplitNone(text, ':');
    }
  }

  // ---------------------------------------------------------------------------
  // Scans over the children of one node
  // ---------------------------------------------------------------------------

  /** The script of a `pre_request_script` or `res_handler_script` node: its last
      `script` child (inline) or `path` child (a file reference). */
  function ScriptOf(children: seq<Node>): Option<Script> {
    if children == [] then None
    else
      var c := children[|children| - 1];
      if c.kind == "script" then Some(Script(c.text, true))
      else if c.kind == "path" then Some(Script(c.text, false))
      else ScriptOf(children[..|children| - 1])
  }

  /** The key/value pair of a `# @key value` comment or an `@key = value`
      declaration: an `identifier` child starts a pair with an empty value, a later
      `value` child fills it in. */
  function KeyValueOf(children: seq<Node>): Option<(String, String)> {
    if children == [] then None
    else
      var acc := KeyValueOf(children[..|children| - 1]);
      var c := children[|children| - 1];
      if c.kind == "identifier" then Some((c.text, []))
      else if c.kind == "value" && acc.Some? then Some((acc.value.0, c.text))
      else acc
  }

  predicate HasChildOfKind(children: seq<Node>, kind: String) {
    exists i :: 0 <= i < |children| && children[i].kind == kind
  }

  /** A pair is found exactly when there is an `identifier` child; its value is
      empty when there is no `value` child. */
  lemma {:induction false} KeyValueFound(children: seq<Node>)
    ensures KeyValueOf(children).Some? <==> HasChildOfKind(children, "identifier")
    ensures !HasChildOfKind(children, "value") && KeyValueOf(children).Some?
      ==> KeyValueOf(children).value.1 == []
  {
    if children != [] {
      var init := children[..|children| - 1];
      KeyValueFound(init);
      assert forall i :: 0 <= i < |init| ==> init[i] == children[i];
      if HasChildOfKind(init, "identifier") {
        var i :| 0 <= i < |init| && init[i].kind == "identifier";
        assert children[i].kind == "identifier";
      }
      if HasChildOfKind(children, "identifier") && children[|children| - 1].kind != "identifier" {
        var i :| 0 <= i < |children| && children[i].kind == "identifier";
        assert init[i].kind == "identifier";
      }
      if !HasChildOfKind(children, "value") {
        assert !HasChildOfKind(init, "value");
      }
    }
  }

  /** `request_separator`: a node without children clears the text; each `value`
      child sets it. */
  function SeparatorText(current: Option<String>, children: seq<Node>): Option<String> {
    if |children| == 0 then None else LastValueText(current, children)
  }

  function LastValueText(current: Option<String>, children: seq<Node>): Option<String> {
    if children == [] then current
    else
      var c := children[|children| - 1];
      if c.kind == "value" then Some(c.text)
      else LastValueText(current, children[..|children| - 1])
  }

  // ---------------------------------------------------------------------------
  // Multipart form data
  // ---------------------------------------------------------------------------

  /** A match of `name="([^"]+)"` starting at `i`: the quoted name. */
  function NameAttributeAt(s: String, i: nat): (r: Option<String>)
    requires i <= |s|
    ensures r.Some? ==> |r.value| > 0 && '"' !in r.value
    ensures r.Some? ==> OccursAt(s, "name=\"" + r.value + "\"", i)
  {
    var t := s[i..];
    if StartsWith(t, "name=\"") then
      var q := FirstIndex(t[6..], '"');
      if 0 < q < |t[6..]| then
        var name := t[6..6 + q];
        assert name == t[6..][..q] && |name| == q;
        assert s[i..i + 6 + q + 1] == "name=\"" + name + "\"";
        Some(name)
      else None
    else None
  }

  /** The first `name="..."` attribute with a non-empty, quote-free value: the
      leftmost match's captured name, as `NameAttributeNone` and
      `NameAttributeLeftmost` state. */
  function NameAttribute(s: String, i: nat): (r: Option<String>)
    requires i <= |s|
    ensures r.Some? ==> |r.value| > 0 && '"' !in r.value
    decreases |s| - i
  {
    match NameAttributeAt(s, i)
    case Some(name) => Some(name)
    case None => if i == |s| then None else NameAttribute(s, i + 1)
  }

  /** JavaScript truthiness of a `string | null`. */
  predicate Truthy(o: Option<String>) {
    o.Some? && o.value != []
  }

  /** The accumulator of the line scan: the pending key and value, and the fields
      pushed so far. */
  datatype MultipartScan = MultipartScan(key: Option<String>, value: Option<String>, fields: seq<FormField>)

  /** One line of a `multipart_form_data` node. */
  function MultipartLineStep(m: MultipartScan, part: String): MultipartScan {
    var m1 :=
      if StartsWith(part, "Content-Disposition") then
        (match NameAttribute(part, 0)
         case Some(k) => m.(key := Some(k))
         case None => m)
      else if Truthy(m.key) && m.value.None? then m.(value := Some(part))
      else if Truthy(m.key) && m.value.Some? then m.(value := Some(Trim(m.value.value + part)))
      else m;
    if Truthy(m1.key) && Truthy(m1.value) then
      MultipartScan(None, None, m1.fields + [FormField(m1.key.value, m1.value.value, None, None)])
    else m1
  }

  function MultipartLines(lines: seq<String>): MultipartScan {
    if lines == [] then MultipartScan(None, None, [])
    else MultipartLineStep(MultipartLines(lines[..|lines| - 1]), lines[|lines| - 1])
  }

  predicate FieldsFilled(fields: seq<FormField>) {
    forall k :: 0 <= k < |fields| ==> fields[k].key != [] && fields[k].value != []
  }

  /** One line only ever appends a field with a non-empty key and value. */
  lemma MultipartLineStepFilled(m: MultipartScan, part: String)
    requires FieldsFilled(m.fields)
    ensures FieldsFilled(MultipartLineStep(m, part).fields)
  {
  }

  /** Every field the scan pushes has a non-empty key and a non-empty value. */
  lemma {:induction false} MultipartFieldsNonEmpty(lines: seq<String>)
    ensures FieldsFilled(MultipartLines(lines).fields)
  {
    if lines != [] {
      MultipartFieldsNonEmpty(lines[..|lines| - 1]);
      MultipartLineStepFilled(MultipartLines(lines[..|lines| - 1]), lines[|lines| - 1]);
    }
  }

  /** `name="v"` stands at `j`, with `v` non-empty and free of quotes: the text
      `name="([^"]+)"` matches there. */
  predicate NameAttributeStandsAt(s: String, j: nat, v: String) {
    v != [] && '"' !in v && OccursAt(s, "name=\"" + v + "\"", j)
  }

  /** Every `name="v"` standing at `i` is found there, with its name. */
  lemma NameAttributeAtOf(s: String, i: nat, v: String)
    requires i <= |s| && NameAttributeStandsAt(s, i, v)
    ensures NameAttributeAt(s, i) == Some(v)
  {
    var t := s[i..];
    var w := "name=\"" + v + "\"";
    assert t[..|w|] == w;
    assert t[..6] == w[..6] == "name=\"";
    var q := FirstIndex(t[6..], '"');
    assert t[6..][|v|] == w[6 + |v|] == '"';
    forall m | 0 <= m < |v| ensures t[6..][m] == v[m] {
      assert t[6..][m] == w[6 + m];
    }
    assert q == |v|;
    assert t[6..6 + q] == v;
  }

  /** `NameAttribute` finds nothing exactly when the attribute matches at no
      position from `i` on. */
  lemma {:induction false} NameAttributeNoMatch(s: String, i: nat)
    requires i <= |s|
    ensures NameAttribute(s, i).None? <==> forall j :: i <= j <= |s| ==> NameAttributeAt(s, j).None?
    decreases |s| - i
  {
    if NameAttributeAt(s, i).None? && i < |s| {
      NameAttributeNoMatch(s, i + 1);
    }
  }

  /** `NameAttribute` finds nothing exactly when no `name="v"`, with `v`
      non-empty and free of quotes, stands anywhere from `i` on. */
  lemma NameAttributeNone(s: String, i: nat)
    requires i <= |s|
    ensures NameAttribute(s, i).None? <==> forall j, v :: i <= j <= |s| ==> !NameAttributeStandsAt(s, j, v)
  {
    NameAttributeNoMatch(s, i);
    if NameAttribute(s, i).None? {
      forall j, v | i <= j <= |s| ensures !NameAttributeStandsAt(s, j, v) {
        if NameAttributeStandsAt(s, j, v) {
          NameAttributeAtOf(s, j, v);
        }
      }
    } else {
      var j := NameAttributeFirst(s, i);
      assert NameAttributeStandsAt(s, j, NameAttribute(s, i).value);
    }
  }

  /** What `NameAttribute` finds is the match at the leftmost position from `i`
      where the attribute matches. */
  lemma NameAttributeLeftmost(s: String, i: nat)
    requires i <= |s| && NameAttribute(s, i).Some?
    ensures exists j ::
      i <= j <= |s| && NameAttributeAt(s, j) == NameAttribute(s, i) && forall m :: i <= m < j ==> NameAttributeAt(s, m).None?
  {
    var j := NameAttributeFirst(s, i);
  }

  lemma {:induction false} NameAttributeFirst(s: String, i: nat) returns (j: nat)
    requires i <= |s| && NameAttribute(s, i).Some?
    ensures i <= j <= |s| && NameAttributeAt(s, j) == NameAttribute(s, i)
    ensures forall m :: i <= m < j ==> NameAttributeAt(s, m).None?
    decreases |s| - i
  {
    if NameAttributeAt(s, i).Some? {
      j := i;
    } else {
      j := NameAttributeFirst(s, i + 1);
    }
  }

  /** `key` is the name of some `Content-Disposition` line. */
  predicate NamedByDisposition(lines: seq<String>, key: String) {
    exists i :: 0 <= i < |lines| && StartsWith(lines[i], "Content-Disposition") && NameAttribute(lines[i], 0) == Some(key)
  }

  /** The pending key and every field's key were named by a disposition line. */
  predicate KeysNamed(lines: seq<String>, m: MultipartScan) {
    (m.key.Some? ==> NamedByDisposition(lines, m.key.value))
    && forall k :: 0 <= k < |m.fields| ==> NamedByDisposition(lines, m.fields[k].key)
  }

  lemma NamedByDispositionExtend(lines: seq<String>, part: String, key: String)
    requires NamedByDisposition(lines, key)
    ensures NamedByDisposition(lines + [part], key)
  {
    var i :| 0 <= i < |lines| && StartsWith(lines[i], "Content-Disposition") && NameAttribute(lines[i], 0) == Some(key);
    assert (lines + [part])[i] == lines[i];
  }

  lemma KeysNamedStep(lines: seq<String>, m: MultipartScan, part: String)
    requires KeysNamed(lines, m)
    ensures KeysNamed(lines + [part], MultipartLineStep(m, part))
  {
    var all := lines + [part];
    assert all[|lines|] == part;
    if m.key.Some? {
      NamedByDispositionExtend(lines, part, m.key.value);
    }
    forall k | 0 <= k < |m.fields|
      ensures NamedByDisposition(all, m.fields[k].key)
    {
      NamedByDispositionExtend(lines, part, m.fields[k].key);
    }
  }

  /** Every key of the scan, pending or pushed, is the `name="..."` of a
      `Content-Disposition` line among the lines read. */
  lemma {:induction false} MultipartKeysFromDisposition(lines: seq<String>)
    ensures KeysNamed(lines, MultipartLines(lines))
  {
    if lines != [] {
      var init := lines[..|lines| - 1];
      MultipartKeysFromDisposition(init);
      KeysNamedStep(init, MultipartLines(init), lines[|lines| - 1]);
      assert init + [lines[|lines| - 1]] == lines;
    }
  }

  /** A part laid out as in the source's own comment: a boundary line, a
      `Content-Disposition` line naming `k`, a blank line and the value line `v`
      give the one field `k` with the trimmed value. */
  lemma MultipartBlankThenValue(boundary: String, disposition: String, k: String, v: String)
    requires !StartsWith(boundary, "Content-Disposition")
    requires StartsWith(disposition, "Content-Disposition") && NameAttribute(disposition, 0) == Some(k)
    requires !StartsWith(v, "Content-Disposition") && Trim(v) != []
    ensures MultipartLines([boundary, disposition, "", v]).fields == [FormField(k, Trim(v), None, None)]
  {
    var l1, l2, l3, l4 := [boundary], [boundary, disposition], [boundary, disposition, ""], [boundary, disposition, "", v];
    assert l1[..0] == [] && l2[..1] == l1 && l3[..2] == l2 && l4[..3] == l3;
    var m0 := MultipartLines([]);
    assert m0 == MultipartScan(None, None, []);
    var m1 := MultipartLines(l1);
    assert m1 == MultipartLineStep(m0, boundary);
    assert m1 == m0;
    var m2 := MultipartLines(l2);
    assert m2 == MultipartLineStep(m1, disposition);
    assert m2 == MultipartScan(Some(k), None, []);
    var m3 := MultipartLines(l3);
    assert !StartsWith("", "Content-Disposition");
    assert m3 == MultipartLineStep(m2, "");
    assert m3 == MultipartScan(Some(k), Some(""), []);
    assert MultipartLines(l4) == MultipartLineStep(m3, v);
    assert "" + v == v;
  }

  /** A multipart child whose second child is an `external_body` is skipped. */
  predicate ExternalMultipart(child: Node) {
    |child.children| > 1 && child.children[1].kind == "external_body"
  }

  // ---------------------------------------------------------------------------
  // Sections
  // ---------------------------------------------------------------------------

  /** The block under construction and the locals of the section's visit. */
  datatype SectionState = SectionState(
    separatorText: Option<String>,
    metadata: seq<Metadata>,
    comments: seq<String>,
    preRequestScripts: seq<Script>,
    postRequestScripts: seq<Script>,
    responseRedirect: Option<String>,
    request: Option<Request>,
    httpMethod: String,
    url: String,
    httpVersion: String,
    headers: seq<Header>,
    body: Option<String>,
    multipartFormData: Option<seq<FormField>>)

  const InitialSection := SectionState(None, [], [], [], [], None, None, [], [], [], [], None, None)

  /** One child of a `request` node: the `switch` on its kind, then the body and
      the multipart checks. */
  function RequestChildStep(st: SectionState, child: Node): SectionState {
    MultipartStep(BodyStep(SwitchStep(st, child), child), child)
  }

  /** The `switch (child.type)` of the request visit. */
  function SwitchStep(st: SectionState, child: Node): SectionState {
    if child.kind == "method" then st.(httpMethod := child.text)
    else if child.kind == "target_url" then st.(url := FormatUrl(child.text))
    else if child.kind == "http_version" then st.(httpVersion := child.text)
    else if child.kind == "header" then st.(headers := st.headers + [SplitHeader(child.text)])
    else if child.kind == "res_redirect" then st.(responseRedirect := Some(child.text))
    else if child.kind == "res_handler_script" then
      (match ScriptOf(child.children)
       case Some(s) => st.(postRequestScripts := st.postRequestScripts + [s])
       case None => st)
    else st
  }

  /** Any child whose kind ends in `_body` sets the body. */
  function BodyStep(st: SectionState, child: Node): SectionState {
    if EndsWith(child.kind, "_body") then st.(body := Some(child.text)) else st
  }

  /** A `multipart_form_data` child appends its scanned fields, unless its second
      child is an `external_body`. */
  function MultipartStep(st: SectionState, child: Node): SectionState {
    if child.kind == "multipart_form_data" && !ExternalMultipart(child) then
      var existing := if st.multipartFormData.Some? then st.multipartFormData.value else [];
      st.(multipartFormData := Some(existing + MultipartLines(Split(child.text, '\n')).fields))
    else st
  }

  /** A multipart child that refers to an external body leaves the form data of
      the request as it was. */
  lemma ExternalSkipped(st: SectionState, child: Node)
    requires ExternalMultipart(child)
    ensures MultipartStep(st, child) == st
    ensures RequestChildStep(st, child).multipartFormData == st.multipartFormData
  {
  }

  function RequestChildren(st: SectionState, children: seq<Node>): SectionState {
    if children == [] then st
    else RequestChildStep(RequestChildren(st, children[..|children| - 1]), children[|children| - 1])
  }

  /** A `request` node: its children, then the defaults for method and version. */
  function RequestNodeStep(st: SectionState, node: Node): (r: SectionState)
    ensures r.httpMethod != [] && r.httpVersion != []
  {
    var st1 := RequestChildren(st, node.children);
    st1.(httpMethod := if st1.httpMethod == [] then "GET" else st1.httpMethod,
         httpVersion := if st1.httpVersion == [] then "HTTP/1.1" else st1.httpVersion)
  }

  /** A `comment` node: verbatim when it has no children, metadata when it has an
      `identifier` child. */
  function CommentStep(st: SectionState, node: Node): SectionState {
    var st1 := if |node.children| == 0 then st.(comments := st.comments + [node.text]) else st;
    match KeyValueOf(node.children)
    case Some(kv) => st1.(metadata := st1.metadata + [Metadata(kv.0, kv.1)])
    case None => st1
  }

  /** One child of a `section` node; the request is (re)assigned after every child. */
  function SectionStep(st: SectionState, node: Node): SectionState {
    var st1 :=
      if node.kind == "pre_request_script" then
        (match ScriptOf(node.children)
         case Some(s) => st.(preRequestScripts := st.preRequestScripts + [s])
         case None => st)
      else st;
    var st2 :=
      if node.kind == "request_separator" then st1.(separatorText := SeparatorText(st1.separatorText, node.children))
      else st1;
    var st3 := if node.kind == "comment" then CommentStep(st2, node) else st2;
    var st4 := if node.kind == "request" then RequestNodeStep(st3, node) else st3;
    st4.(request := Some(Request(st4.httpMethod, st4.url, st4.httpVersion, st4.headers, st4.body, st4.multipartFormData)))
  }

  function SectionChildren(children: seq<Node>): SectionState {
    if children == [] then InitialSection
    else SectionStep(SectionChildren(children[..|children| - 1]), children[|children| - 1])
  }

  /** The block a `section` node maps to. */
  function BlockOf(section: Node): Block {
    var st := SectionChildren(section.children);
    Block(st.separatorText, st.metadata, st.comments, st.request,
          st.preRequestScripts, st.postRequestScripts, st.responseRedirect)
  }

  /** A block is kept when it has a non-empty URL, metadata or comments. */
  predicate Retained(b: Block) {
    (b.request.Some? && |b.request.value.url| > 0) || |b.metadata| > 0 || |b.comments| > 0
  }

  /** The kept blocks of the `section` nodes among `nodes`, in order. */
  function BlocksOf(nodes: seq<Node>): seq<Block> {
    if nodes == [] then []
    else
      var init := BlocksOf(nodes[..|nodes| - 1]);
      var n := nodes[|nodes| - 1];
      if n.kind == "section" && Retained(BlockOf(n)) then init + [BlockOf(n)] else init
  }

  // ---------------------------------------------------------------------------
  // Variables
  // ---------------------------------------------------------------------------

  /** What the traversal callback records for one node. */
  function DeclaredVariable(n: Node): Option<Variable> {
    if n.kind == "variable_declaration" then
      match KeyValueOf(n.children)
      case Some(kv) => Some(Variable(kv.0, kv.1))
      case None => None
    else None
  }

  function VariablesIn(ns: seq<Node>): seq<Variable> {
    if ns == [] then []
    else
      (match DeclaredVariable(ns[0]) case Some(v) => [v] case None => [])
      + VariablesIn(ns[1..])
  }

  lemma {:induction false} VariablesInAppend(a: seq<Node>, b: seq<Node>)
    ensures VariablesIn(a + b) == VariablesIn(a) + VariablesIn(b)
  {
    if a == [] {
      assert a + b == b;
    } else {
      assert (a + b)[0] == a[0] && (a + b)[1..] == a[1..] + b;
      VariablesInAppend(a[1..], b);
    }
  }

  // ---------------------------------------------------------------------------
  // parse
  // ---------------------------------------------------------------------------

  /** `parse` on an already built tree. */
  function DocumentOf(root: Node): Option<Document> {
    if HasErrors(root) then None
    else Some(Document(VariablesIn(Preorder(root)), BlocksOf(root.children)))
  }

  // ---------------------------------------------------------------------------
  // The imperative visit, proved against the functions above
  // ---------------------------------------------------------------------------

  /** The `forEach` over the children of a script node. */
  method ScanScript(children: seq<Node>) returns (script: Option<Script>)
    ensures script == ScriptOf(children)
  {
    script := None;
    for i := 0 to |children|
      invariant script == ScriptOf(children[..i])
    {
      var c := children[i];
      if c.kind == "script" {
        script := Some(Script(c.text, true));
      } else if c.kind == "path" {
        script := Some(Script(c.text, false));
      }
      assert children[..i + 1][..i] == children[..i];
    }
    assert children[..|children|] == children;
  }

  /** The `forEach` that fills `md` (comments) or `variable` (declarations). */
  method ScanKeyValue(children: seq<Node>) returns (kv: Option<(String, String)>)
    ensures kv == KeyValueOf(children)
  {
    kv := None;
    for i := 0 to |children|
      invariant kv == KeyValueOf(children[..i])
    {
      var c := children[i];
      if c.kind == "identifier" {
        kv := Some((c.text, []));
      } else if c.kind == "value" {
        if kv.Some? {
          kv := Some((kv.value.0, c.text));
        }
      }
      assert children[..i + 1][..i] == children[..i];
    }
    assert children[..|children|] == children;
  }

  /** The children of a `request_separator` node. */
  method ScanSeparator(current: Option<String>, children: seq<Node>) returns (text: Option<String>)
    ensures text == SeparatorText(current, children)
  {
    text := current;
    if |children| == 0 {
      text := None;
    }
    for i := 0 to |children|
      invariant |children| == 0 ==> text == None
      invariant |children| > 0 ==> text == LastValueText(current, children[..i])
    {
      if children[i].kind == "value" {
        text := Some(children[i].text);
      }
      assert children[..i + 1][..i] == children[..i];
    }
    assert children[..|children|] == children;
  }

  /** One line of the scan of a `multipart_form_data` node's text. */
  method VisitMultipartLine(key0: Option<String>, value0: Option<String>, fields0: seq<FormField>, part: String)
    returns (key: Option<String>, value: Option<String>, fields: seq<FormField>)
    ensures MultipartScan(key, value, fields) == MultipartLineStep(MultipartScan(key0, value0, fields0), part)
  {
    key, value, fields := key0, value0, fields0;
    if StartsWith(part, "Content-Disposition") {
      var name := NameAttribute(part, 0);
      if name.Some? {
        key := name;
      }
    } else if Truthy(key) && value.None? {
      value := Some(part);
    } else if Truthy(key) && value.Some? {
      value := Some(Trim(value.value + part));
    }
    if Truthy(key) && Truthy(value) {
      fields := fields + [FormField(key.value, value.value, None, None)];
      key := None;
      value := None;
    }
  }

  /** The line-by-line scan of a `multipart_form_data` node's text. */
  method ScanMultipart(text: String) returns (fields: seq<FormField>)
    ensures fields == MultipartLines(Split(text, '\n')).fields
  {
    var parts := Split(text, '\n');
    var key: Option<String> := None;
    var value: Option<String> := None;
    fields := [];
    for i := 0 to |parts|
      invariant MultipartScan(key, value, fields) == MultipartLines(parts[..i])
    {
      key, value, fields := VisitMultipartLine(key, value, fields, parts[i]);
      assert parts[..i + 1][..i] == parts[..i];
    }
    assert parts[..|parts|] == parts;
  }

  /** The body of the `forEach` over a `request` node's children. */
  method VisitRequestChild(st0: SectionState, child: Node) returns (st: SectionState)
    ensures st == RequestChildStep(st0, child)
  {
    st := st0;
    if child.kind == "method" {
      st := st.(httpMethod := child.text);
    } else if child.kind == "target_url" {
      st := st.(url := FormatUrl(child.text));
    } else if child.kind == "http_version" {
      st := st.(httpVersion := child.text);
    } else if child.kind == "header" {
      st := st.(headers := st.headers + [SplitHeader(child.text)]);
    } else if child.kind == "res_redirect" {
      st := st.(responseRedirect := Some(child.text));
    } else if child.kind == "res_handler_script" {
      var script := ScanScript(child.children);
      if script.Some? {
        st := st.(postRequestScripts := st.postRequestScripts + [script.value]);
      }
    }
    if EndsWith(child.kind, "_body") {
      st := st.(body := Some(child.text));
    }
    if child.kind == "multipart_form_data" && !ExternalMultipart(child) {
      var existing := if st.multipartFormData.Some? then st.multipartFormData.value else [];
      var scanned := ScanMultipart(child.text);
      st := st.(multipartFormData := Some(existing + scanned));
    }
  }

  /** The `forEach` over a `request` node's children, then the defaults. */
  method ProcessRequest(st0: SectionState, node: Node) returns (st: SectionState)
    ensures st == RequestNodeStep(st0, node)
  {
    st := st0;
    var children := node.children;
    for i := 0 to |children|
      invariant st == RequestChildren(st0, children[..i])
    {
      st := VisitRequestChild(st, children[i]);
      assert children[..i + 1][..i] == children[..i];
    }
    assert children[..|children|] == children;
    if st.httpMethod == [] {
      st := st.(httpMethod := "GET");
    }
    if st.httpVersion == [] {
      st := st.(httpVersion := "HTTP/1.1");
    }
  }

  /** The body of the `forEach` over a `section` node's children. */
  method VisitSectionChild(st0: SectionState, node: Node) returns (st: SectionState)
    ensures st == SectionStep(st0, node)
  {
    st := st0;
    if node.kind == "pre_request_script" {
      var script := ScanScript(node.children);
      if script.Some? {
        st := st.(preRequestScripts := st.preRequestScripts + [script.value]);
      }
    }
    if node.kind == "request_separator" {
      var text := ScanSeparator(st.separatorText, node.children);
      st := st.(separatorText := text);
    }
    if node.kind == "comment" {
      if |node.children| == 0 {
        st := st.(comments := st.comments + [node.text]);
      }
      var md := ScanKeyValue(node.children);
      if md.Some? {
        st := st.(metadata := st.metadata + [Metadata(md.value.0, md.value.1)]);
      }
    }
    if node.kind == "request" {
      st := ProcessRequest(st, node);
    }
    st := st.(request := Some(Request(st.httpMethod, st.url, st.httpVersion, st.headers, st.body, st.multipartFormData)));
  }

  /** The visit of one `section` node. */
  method MapSection(section: Node) returns (block: Block)
    ensures block == BlockOf(section)
  {
    var st := InitialSection;
    var children := section.children;
    for i := 0 to |children|
      invariant st == SectionChildren(children[..i])
    {
      st := VisitSectionChild(st, children[i]);
      assert children[..i + 1][..i] == children[..i];
    }
    assert children[..|children|] == children;
    block := Block(st.separatorText, st.metadata, st.comments, st.request,
                   st.preRequestScripts, st.postRequestScripts, st.responseRedirect);
  }

  /** `traverseNodes` with the callback that collects variable declarations:
      the node itself, then each child's subtree in order. */
  method CollectVariables(n: Node, acc: seq<Variable>) returns (vars: seq<Variable>)
    ensures vars == acc + VariablesIn(Preorder(n))
    decreases n, 1
  {
    vars := acc;
    if n.kind == "variable_declaration" {
      var kv := ScanKeyValue(n.children);
      if kv.Some? {
        vars := vars + [Variable(kv.value.0, kv.value.1)];
      }
    }
    assert vars == acc + VariablesIn([n]);
    ghost var own := vars;
    vars := CollectChildVariables(n.children, vars);
    VariablesInAppend([n], PreorderAll(n.children));
    AccumulateVariables(acc, own, vars, [n], PreorderAll(n.children));
  }

  /** Collecting `a`'s variables and then `b`'s collects those of `a + b`. */
  lemma AccumulateVariables(acc: seq<Variable>, mid: seq<Variable>, vars: seq<Variable>, a: seq<Node>, b: seq<Node>)
    requires mid == acc + VariablesIn(a) && vars == mid + VariablesIn(b)
    requires VariablesIn(a + b) == VariablesIn(a) + VariablesIn(b)
    ensures vars == acc + VariablesIn(a + b)
  {
  }

  /** The `forEach` over the children in `traverseNodes`. */
  method CollectChildVariables(cs: seq<Node>, acc: seq<Variable>) returns (vars: seq<Variable>)
    ensures vars == acc + VariablesIn(PreorderAll(cs))
    decreases cs, 0
  {
    vars := acc;
    for i := 0 to |cs|
      invariant vars == acc + VariablesIn(PreorderAll(cs[..i]))
    {
      ghost var before := vars;
      vars := CollectVariables(cs[i], vars);
      PreorderAllSnoc(cs, i);
      VariablesInAppend(PreorderAll(cs[..i]), Preorder(cs[i]));
      AccumulateVariables(acc, before, vars, PreorderAll(cs[..i]), Preorder(cs[i]));
    }
    assert cs[..|cs|] == cs;
  }

  /** `parse`: no document when any node of the tree has an error; otherwise the
      kept blocks of the top-level sections and every variable of the tree. */
  method Parse(root: Node) returns (doc: Option<Document>)
    ensures doc.None? <==> SomeError(Preorder(root))
    ensures doc == DocumentOf(root)
  {
    if HasErrors(root) {
      return None;
    }
    var blocks: seq<Block> := [];
    var nodes := root.children;
    for i := 0 to |nodes|
      invariant blocks == BlocksOf(nodes[..i])
    {
      var bn := nodes[i];
      if bn.kind == "section" {
        var block := MapSection(bn);
        if (block.request.Some? && |block.request.value.url| > 0) || |block.metadata| > 0 || |block.comments| > 0 {
          blocks := blocks + [block];
        }
      }
      assert nodes[..i + 1][..i] == nodes[..i];
    }
    assert nodes[..|nodes|] == nodes;
    var variables := CollectVariables(root, []);
    assert variables == VariablesIn(Preorder(root));
    doc := Some(Document(variables, blocks));
  }

  // ---------------------------------------------------------------------------
  // Properties of the visit
  // ---------------------------------------------------------------------------

  /** The last child of `kind`, if any. */
  function LastOfKind(cs: seq<Node>, kind: String): (r: Option<Node>)
    ensures r.Some? ==> r.value in cs && r.value.kind == kind
  {
    if cs == [] then None
    else if cs[|cs| - 1].kind == kind then Some(cs[|cs| - 1])
    else LastOfKind(cs[..|cs| - 1], kind)
  }

  lemma {:induction false} LastOfKindNone(cs: seq<Node>, kind: String)
    ensures LastOfKind(cs, kind).None? <==> !HasChildOfKind(cs, kind)
  {
    if cs != [] {
      var init := cs[..|cs| - 1];
      LastOfKindNone(init, kind);
      if HasChildOfKind(init, kind) {
        var i :| 0 <= i < |init| && init[i].kind == kind;
        assert cs[i].kind == kind;
      }
      if HasChildOfKind(cs, kind) && cs[|cs| - 1].kind != kind {
        var i :| 0 <= i < |cs| && cs[i].kind == kind;
        assert init[i].kind == kind;
      }
    }
  }

  /** The headers of the `header` children, in order. */
  function HeadersOf(cs: seq<Node>): seq<Header> {
    if cs == [] then []
    else HeadersOf(cs[..|cs| - 1]) + (if cs[|cs| - 1].kind == "header" then [SplitHeader(cs[|cs| - 1].text)] else [])
  }

  /** Within a `request` node the last `method`, `target_url` and `http_version`
      child win. */
  lemma {:induction false} RequestChildrenLine(st: SectionState, cs: seq<Node>)
    ensures RequestChildren(st, cs).httpMethod ==
      (match LastOfKind(cs, "method") case Some(c) => c.text case None => st.httpMethod)
    ensures RequestChildren(st, cs).url ==
      (match LastOfKind(cs, "target_url") case Some(c) => FormatUrl(c.text) case None => st.url)
    ensures RequestChildren(st, cs).httpVersion ==
      (match LastOfKind(cs, "http_version") case Some(c) => c.text case None => st.httpVersion)
  {
    if cs != [] {
      RequestChildrenLine(st, cs[..|cs| - 1]);
      RequestChildStepFields(RequestChildren(st, cs[..|cs| - 1]), cs[|cs| - 1]);
    }
  }

  /** Within a `request` node headers are appended in child order, and the
      block-level parts of the section are not touched. */
  lemma {:induction false} RequestChildrenFields(st: SectionState, cs: seq<Node>)
    ensures RequestChildren(st, cs).headers == st.headers + HeadersOf(cs)
    ensures RequestChildren(st, cs).separatorText == st.separatorText
    ensures RequestChildren(st, cs).metadata == st.metadata
    ensures RequestChildren(st, cs).comments == st.comments
    ensures RequestChildren(st, cs).preRequestScripts == st.preRequestScripts
  {
    if cs != [] {
      RequestChildrenFields(st, cs[..|cs| - 1]);
      RequestChildStepFields(RequestChildren(st, cs[..|cs| - 1]), cs[|cs| - 1]);
    }
  }

  lemma {:induction false} RequestChildStepFields(st: SectionState, c: Node)
    ensures RequestChildStep(st, c).httpMethod == if c.kind == "method" then c.text else st.httpMethod
    ensures RequestChildStep(st, c).url == if c.kind == "target_url" then FormatUrl(c.text) else st.url
    ensures RequestChildStep(st, c).httpVersion == if c.kind == "http_version" then c.text else st.httpVersion
    ensures RequestChildStep(st, c).headers ==
      st.headers + (if c.kind == "header" then [SplitHeader(c.text)] else [])
    ensures RequestChildStep(st, c).separatorText == st.separatorText
    ensures RequestChildStep(st, c).metadata == st.metadata
    ensures RequestChildStep(st, c).comments == st.comments
    ensures RequestChildStep(st, c).preRequestScripts == st.preRequestScripts
  {
    var s1 := SwitchStep(st, c);
    var s2 := BodyStep(s1, c);
    assert s2.(body := s1.body) == s1;
    var s3 := MultipartStep(s2, c);
    assert s3.(multipartFormData := s2.multipartFormData) == s2;
  }

  /** Method and version default to `GET` and `HTTP/1.1` exactly when the node
      leaves them empty. */
  lemma RequestDefaults(st: SectionState, node: Node)
    ensures var m := match LastOfKind(node.children, "method") case Some(c) => c.text case None => st.httpMethod;
      RequestNodeStep(st, node).httpMethod == if m == [] then "GET" else m
    ensures var v := match LastOfKind(node.children, "http_version") case Some(c) => c.text case None => st.httpVersion;
      RequestNodeStep(st, node).httpVersion == if v == [] then "HTTP/1.1" else v
    ensures !HasChildOfKind(node.children, "method") && st.httpMethod == [] ==> RequestNodeStep(st, node).httpMethod == "GET"
  {
    RequestChildrenLine(st, node.children);
    LastOfKindNone(node.children, "method");
  }

  /** A childless `comment` is kept verbatim; a `comment` with an `identifier`
      child becomes metadata and not a comment; any other `comment` is dropped. */
  lemma CommentClassified(st: SectionState, node: Node)
    ensures |node.children| == 0 ==> CommentStep(st, node) == st.(comments := st.comments + [node.text])
    ensures HasChildOfKind(node.children, "identifier") ==>
      var r := CommentStep(st, node);
      r.comments == st.comments && |r.metadata| == |st.metadata| + 1 && r.metadata[..|st.metadata|] == st.metadata
      && r.metadata[|st.metadata|].key == KeyValueOf(node.children).value.0
      && r.metadata[|st.metadata|].value == KeyValueOf(node.children).value.1
      && (!HasChildOfKind(node.children, "value") ==> r.metadata[|st.metadata|].value == [])
    ensures |node.children| > 0 && !HasChildOfKind(node.children, "identifier") ==> CommentStep(st, node) == st
  {
    KeyValueFound(node.children);
    var r := CommentStep(st, node);
    if HasChildOfKind(node.children, "identifier") {
      assert r.metadata[..|st.metadata|] == st.metadata;
    }
  }

  /** A section gets a request exactly when it has a child, since the request is
      assigned after every child. */
  lemma SectionRequest(cs: seq<Node>)
    ensures SectionChildren(cs).request.Some? <==> |cs| > 0
  {
  }

  /** Without a `request` child every request field keeps its initial empty
      value, and so does the request assigned after each child. */
  lemma {:induction false} SectionWithoutRequest(cs: seq<Node>)
    requires forall i :: 0 <= i < |cs| ==> cs[i].kind != "request"
    ensures var st := SectionChildren(cs);
      st.httpMethod == [] && st.url == [] && st.httpVersion == [] && st.headers == []
      && st.body.None? && st.multipartFormData.None?
      && (|cs| > 0 ==> st.request == Some(Request([], [], [], [], None, None)))
  {
    if cs != [] {
      SectionWithoutRequest(cs[..|cs| - 1]);
    }
  }

  /** The kept blocks are those of the sections, in order. */
  lemma {:induction false} BlocksOfAppend(a: seq<Node>, b: seq<Node>)
    ensures BlocksOf(a + b) == BlocksOf(a) + BlocksOf(b)
    decreases |b|
  {
    if b == [] {
      assert a + b == a;
    } else {
      var b0 := b[..|b| - 1];
      assert (a + b)[..|a + b| - 1] == a + b0;
      BlocksOfAppend(a, b0);
    }
  }

  /** Every kept block is retained. */
  lemma {:induction false} KeptBlocksRetained(nodes: seq<Node>)
    ensures forall b :: b in BlocksOf(nodes) ==> Retained(b)
  {
    if nodes != [] {
      KeptBlocksRetained(nodes[..|nodes| - 1]);
    }
  }

  /** Some section of `nodes` maps to `b`. */
  ghost predicate FromSection(nodes: seq<Node>, b: Block) {
    exists i :: 0 <= i < |nodes| && nodes[i].kind == "section" && BlockOf(nodes[i]) == b
  }

  /** Every kept block is the block of one of the sections. */
  lemma {:induction false} KeptBlocksFromSections(nodes: seq<Node>)
    ensures forall b :: b in BlocksOf(nodes) ==> FromSection(nodes, b)
  {
    if nodes != [] {
      var init := nodes[..|nodes| - 1];
      KeptBlocksFromSections(init);
      forall b | b in BlocksOf(nodes) ensures FromSection(nodes, b) {
        if b in BlocksOf(init) {
          var i :| 0 <= i < |init| && init[i].kind == "section" && BlockOf(init[i]) == b;
          assert nodes[i] == init[i];
        } else {
          assert nodes[|nodes| - 1].kind == "section" && BlockOf(nodes[|nodes| - 1]) == b;
        }
      }
    }
  }

  /** Every retained section's block is kept. */
  lemma {:induction false} RetainedSectionsKept(nodes: seq<Node>)
    ensures forall i :: 0 <= i < |nodes| && nodes[i].kind == "section" && Retained(BlockOf(nodes[i])) ==>
      BlockOf(nodes[i]) in BlocksOf(nodes)
  {
    if nodes != [] {
      var init := nodes[..|nodes| - 1];
      RetainedSectionsKept(init);
      forall i | 0 <= i < |nodes| && nodes[i].kind == "section" && Retained(BlockOf(nodes[i]))
        ensures BlockOf(nodes[i]) in BlocksOf(nodes)
      {
        if i < |init| {
          assert init[i] == nodes[i];
        }
      }
    }
  }

  /** A node that declares a variable: a `variable_declaration` with an
      `identifier` child. */
  predicate Declares(n: Node) {
    n.kind == "variable_declaration" && HasChildOfKind(n.children, "identifier")
  }

  function CountDeclarations(ns: seq<Node>): nat {
    if ns == [] then 0 else (if Declares(ns[0]) then 1 else 0) + CountDeclarations(ns[1..])
  }

  /** One variable per declaring node, each taken from a node of the walk, and
      every declaring node's variable present. */
  lemma {:induction false} VariablesOfDeclarations(ns: seq<Node>)
    ensures |VariablesIn(ns)| == CountDeclarations(ns)
    ensures forall i :: 0 <= i < |ns| && Declares(ns[i]) ==>
      DeclaredVariable(ns[i]).Some? && DeclaredVariable(ns[i]).value in VariablesIn(ns)
    ensures forall v :: v in VariablesIn(ns) ==> exists i :: 0 <= i < |ns| && DeclaredVariable(ns[i]) == Some(v)
  {
    if ns != [] {
      VariablesOfDeclarations(ns[1..]);
      KeyValueFound(ns[0].children);
      forall i | 0 <= i < |ns| && Declares(ns[i])
        ensures DeclaredVariable(ns[i]).Some? && DeclaredVariable(ns[i]).value in VariablesIn(ns)
      {
        KeyValueFound(ns[i].children);
        if i > 0 {
          assert ns[1..][i - 1] == ns[i];
        }
      }
      forall v | v in VariablesIn(ns)
        ensures exists i :: 0 <= i < |ns| && DeclaredVariable(ns[i]) == Some(v)
      {
        if v !in VariablesIn(ns[1..]) {
          assert DeclaredVariable(ns[0]) == Some(v);
        } else {
          var j :| 0 <= j < |ns[1..]| && DeclaredVariable(ns[1..][j]) == Some(v);
          assert ns[j + 1] == ns[1..][j];
        }
      }
    }
  }

  /** A declaration anywhere in a tree without errors, however deeply nested,
      yields a variable of the document. */
  lemma DocumentHasEveryVariable(root: Node, m: Node)
    requires !SomeError(Preorder(root))
    requires m in Preorder(root) && Declares(m)
    ensures DocumentOf(root).Some?
    ensures DeclaredVariable(m).Some? && DeclaredVariable(m).value in DocumentOf(root).value.variables
  {
    VariablesOfDeclarations(Preorder(root));
    KeyValueFound(m.children);
    var i :| 0 <= i < |Preorder(root)| && Preorder(root)[i] == m;
  }
}
