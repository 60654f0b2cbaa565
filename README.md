# Kulala `.http` document parser and builder, in Dafny

This project models the core of the Kulala desktop application's handling of
`.http` request files. It has three parts, with two shared modules under them.

- **`DocumentParser`** (`document_parser.dfy`) maps the syntax tree of a
  `.http` document to a `Document`, or to nothing when any node of the tree is
  in error. A `Document` holds the variables and the blocks. Each block has a
  request separator, comments, `# @key value` metadata, pre- and post-request
  scripts, a response redirect and a request. The request has a method, a URL,
  a version, headers, a body and multipart form data.
- **`DocumentBuilder`** (`document_builder.dfy`) serialises a `Document` back
  into `.http` text. It also holds the body helpers:
  - header-key casing by HTTP version;
  - form-urlencoded layout;
  - multipart encoding with a boundary taken from the content type;
  - the GraphQL query/variables split;
  - the choice of body formatter.
- **`Placeholders`** (`placeholders.dfy`) hides `{{name}}` placeholders from
  the body formatter behind quoted keys, and puts them back afterwards.
- **`RendererParser`** (`renderer_parser.dfy`) is the renderer's own
  line-based reader. It does five things:
  - splits the source at `###` lines;
  - recognises request lines;
  - reads `@name=value` variables and `# @key value` magic types;
  - separates headers from the body at the first blank line;
  - looks up a block by its index.
- **`Strings`** (`strings.dfy`) and **`Wrappers`** (`wrappers.dfy`) give the
  JavaScript string operations the source relies on, and `Option`/`Result`.
  The string operations are `trim`, `split` on one character, `join`,
  whitespace removal, blank-line collapsing and ASCII lower/upper case.

Each loop of the source's imperative functions is a `method`. That method is proved equal to a
specification function: a fold over the lines, the children or the blocks.
The properties the source promises are lemmas about those functions.

Some of the source's calls can throw. Reading a header line without a colon
in the renderer throws a `TypeError`. The formatter's failure leads to
`process.exit`. Both become the `Err` case of a `Result`.

## Model

| member | source | states |
|---|---|---|
| Strings.Split | src/renderer/src/parser/index.ts:45 | the pieces contain no separator, there is at least one, and joining them with the separator gives the input back |
| Strings.TrimCutsOuterSpaces | src/renderer/src/parser/index.ts:143 | the result is the input with only a leading and a trailing whitespace run cut, and it is empty or starts and ends with a non-whitespace character |
| Strings.TrimOfTrimmed | src/renderer/src/parser/index.ts:143 | trimming text that neither starts nor ends with whitespace changes nothing |
| Strings.RemoveSpacesLeavesNoSpace | src/main/parser/DocumentBuilder.ts:14 | removing whitespace leaves no whitespace character |
| Strings.RemoveSpacesAppend | src/main/parser/DocumentBuilder.ts:14 | whitespace removal distributes over concatenation |
| Strings.CollapseLeavesNoBlankLine | src/main/parser/DocumentParser.ts:107 | after collapsing, no newline–whitespace–newline run is left |
| Strings.CollapseKeepsContent | src/main/parser/DocumentParser.ts:107 | collapsing blank lines removes only whitespace |
| Strings.CollapseWithoutBlankLines | src/main/parser/DocumentParser.ts:107 | text without a blank line is unchanged by collapsing |
| DocumentParser.HasErrors | src/main/parser/DocumentParser.ts:72-90 | the walk reports an error exactly when some node of the depth-first preorder has its error flag set |
| DocumentParser.PreorderOfChild | src/main/parser/DocumentParser.ts:67-70 | every node visited under a child is visited under its parent |
| DocumentParser.FormatUrlWithoutQuery | src/main/parser/DocumentParser.ts:101-105 | a URL without `?` is returned unchanged |
| DocumentParser.FormatUrlLayout | src/main/parser/DocumentParser.ts:101-108 | a whitespace-free URL becomes its base, `?`, and the query parameters with each `&` opening an indented line |
| DocumentParser.FormatUrlKeepsContent | src/main/parser/DocumentParser.ts:106-107 | apart from whitespace, the result is the base, `?` and the query string; anything after a second `?` is lost |
| DocumentParser.FormatUrlNoBlankLine | src/main/parser/DocumentParser.ts:107 | the formatted URL has no blank line |
| DocumentParser.SplitHeaderAtFirstColon | src/main/parser/DocumentParser.ts:226-234 | a header's key is the trimmed text before its first colon and its value the trimmed rest, further colons included; without a colon the whole trimmed text is the key and the value is empty |
| DocumentParser.KeyValueFound | src/main/parser/DocumentParser.ts:190-209 | a key/value is produced exactly when there is an `identifier` child, with an empty value when there is no `value` child |
| DocumentParser.ScanKeyValue | src/main/parser/DocumentParser.ts:190-206 | the loop over a comment's children computes the key/value fold |
| DocumentParser.ScanScript | src/main/parser/DocumentParser.ts:150-171 | the loop over a script node's children yields the last `script` (inline) or `path` (file) child |
| DocumentParser.ScanSeparator | src/main/parser/DocumentParser.ts:172-184 | the separator text becomes that of the last `value` child, or none for a separator without children |
| DocumentParser.NameAttributeAt | src/main/parser/DocumentParser.ts:292 | a found multipart field name is non-empty, has no quote, and stands as `name="…"` at the given position |
| DocumentParser.NameAttributeAtOf | src/main/parser/DocumentParser.ts:292-295 | where the text `name="v"` stands, with `v` non-empty and free of quotes, the name found at that position is `v` |
| DocumentParser.NameAttributeNone | src/main/parser/DocumentParser.ts:292-295 | the line yields no name exactly when the text `name="v"`, for no non-empty quote-free `v`, stands at any position from the start |
| DocumentParser.NameAttributeLeftmost | src/main/parser/DocumentParser.ts:292-295 | a name found is the match at the leftmost position where the attribute matches |
| DocumentParser.VisitMultipartLine | src/main/parser/DocumentParser.ts:290-306 | one multipart line updates key, pending value and fields as the line step says |
| DocumentParser.ScanMultipart | src/main/parser/DocumentParser.ts:289-307 | the loop over the lines of a multipart body yields the fields of the line fold |
| DocumentParser.MultipartFieldsNonEmpty | src/main/parser/DocumentParser.ts:302-306 | every multipart field collected has a non-empty key and a non-empty value |
| DocumentParser.MultipartKeysFromDisposition | src/main/parser/DocumentParser.ts:290-306 | the pending key and every field's key is the `name="…"` of some `Content-Disposition` line among the lines read |
| DocumentParser.MultipartBlankThenValue | src/main/parser/DocumentParser.ts:280-306 | a boundary line, a `Content-Disposition` line naming `k`, a blank line and a value line give exactly the one field `k` with the trimmed value |
| DocumentParser.ExternalSkipped | src/main/parser/DocumentParser.ts:263-277 | a `multipart_form_data` child whose second child is an `external_body` leaves the request's multipart form data as it was |
| DocumentParser.RequestChildStepFields | src/main/parser/DocumentParser.ts:216-234 | a `method`, `target_url` or `http_version` child sets only its own field (the URL formatted), a `header` child appends its split header, and the block's separator, metadata, comments and pre-request scripts are untouched |
| DocumentParser.RequestChildrenLine | src/main/parser/DocumentParser.ts:213-225 | after all children, method, URL and version are those of the last child of that kind, or what they were before |
| DocumentParser.RequestChildrenFields | src/main/parser/DocumentParser.ts:226-234 | after all children, the headers are the earlier ones followed by each `header` child's, in order |
| DocumentParser.VisitRequestChild | src/main/parser/DocumentParser.ts:213-308 | the body of the loop over a request's children computes the child step |
| DocumentParser.RequestNodeStep | src/main/parser/DocumentParser.ts:311-317 | after a request node, method and version are never empty |
| DocumentParser.RequestDefaults | src/main/parser/DocumentParser.ts:311-317 | an empty method becomes `GET` and an empty version `HTTP/1.1`; otherwise the last given one stays |
| DocumentParser.ProcessRequest | src/main/parser/DocumentParser.ts:212-318 | processing a request node computes the request step |
| DocumentParser.CommentClassified | src/main/parser/DocumentParser.ts:185-210 | a comment without children is kept as a comment; one with an `identifier` child adds exactly one metadata entry with that key and value, the value empty without a `value` child, and no comment; any other comment changes nothing |
| DocumentParser.VisitSectionChild | src/main/parser/DocumentParser.ts:149-327 | one child of a section updates the block under construction as the section step says |
| DocumentParser.SectionRequest | src/main/parser/DocumentParser.ts:320-327 | the block's request is set exactly when the section has at least one child |
| DocumentParser.SectionWithoutRequest | src/main/parser/DocumentParser.ts:142-147 | a section without a request node yields an empty request: no method, URL, version, headers, body or form data |
| DocumentParser.MapSection | src/main/parser/DocumentParser.ts:129-328 | mapping a section computes its block |
| DocumentParser.BlocksOfAppend | src/main/parser/DocumentParser.ts:127-332 | the blocks of two runs of nodes are the blocks of each, in order |
| DocumentParser.KeptBlocksRetained | src/main/parser/DocumentParser.ts:329-331 | every block kept has a non-empty URL, metadata or comments |
| DocumentParser.KeptBlocksFromSections | src/main/parser/DocumentParser.ts:127 | every block kept comes from a top-level `section` node |
| DocumentParser.RetainedSectionsKept | src/main/parser/DocumentParser.ts:127-332 | every top-level section whose block has a URL, metadata or comments is kept |
| DocumentParser.CollectVariables | src/main/parser/DocumentParser.ts:334-357 | the recursive walk appends the variables of the node's preorder to the accumulator |
| DocumentParser.CollectChildVariables | src/main/parser/DocumentParser.ts:67-70 | walking the children in turn appends the variables of their preorders |
| DocumentParser.VariablesOfDeclarations | src/main/parser/DocumentParser.ts:334-357 | one variable per declaration with an identifier; every such declaration's variable is collected, and every variable comes from one |
| DocumentParser.Parse | src/main/parser/DocumentParser.ts:112-360 | the result is none exactly when some node of the tree is in error; otherwise it is the document of kept blocks and collected variables |
| DocumentParser.DocumentHasEveryVariable | src/main/parser/DocumentParser.ts:120-122 | for a tree without errors, the document exists and holds the variable of every declaration anywhere in the tree |
| Placeholders.Key | src/main/parser/DocumentBuilder.ts:113 | a key opens with two underscores and the marker and contains no quote |
| Placeholders.ReplaceAt | src/main/parser/DocumentBuilder.ts:112-116 | one step of the placeholder scan advances and keeps text and originals consistent with the replacement from the start |
| Placeholders.ReplacePlaceholders | src/main/parser/DocumentBuilder.ts:108-116 | the scan computes the text with each unquoted `{{name}}` replaced by a quoted numbered key, and the originals in order |
| Placeholders.RemoveQuotePairs | src/main/parser/DocumentBuilder.ts:117 | the loop removes every `""` pair as the left-to-right replacement does |
| Placeholders.PreservePlaceholders | src/main/parser/DocumentBuilder.ts:104-120 | preserving computes the replaced body and the key/original pairs |
| Placeholders.PreserveTwoPlaceholders | src/main/parser/DocumentBuilder.ts:104-120 | for `[{{a}}, {{b}}]` the body becomes the array of the two quoted keys, with the two originals in order |
| Placeholders.FindFrom | src/main/parser/DocumentBuilder.ts:135 | the first occurrence of a pattern at or after a position, or none |
| Placeholders.RestorePlaceholdersAsWritten | src/main/parser/DocumentBuilder.ts:122-139 | restores as the code does, dropping the opening quote only for the first key and the closing quote only for the last; with no pairs the text is unchanged |
| Placeholders.AsWrittenLosesQuotes | src/main/parser/DocumentBuilder.ts:122-139 | with two placeholders the as-written restore leaves stray quotes: `[{{a}}, {{b}}]` comes back as `[{{a}}", "{{b}}]` |
| Placeholders.RestorePlaceholdersCorrected | src/main/parser/DocumentBuilder.ts:122-139 | the corrected restore replaces each quoted key by its original |
| Placeholders.RestoreOfPreserve | src/main/parser/DocumentBuilder.ts:104-139 | restoring what preserving made gives the body back, for a body without the marker and without `""`; placeholders side by side, whose keys lose the quotes between them, come back too |
| Placeholders.RemovePairsOfProtected | src/main/parser/DocumentBuilder.ts:112-117 | removing `""` from the protected text of a body without `""` keeps every quoted key, except that two keys side by side lose the quotes between them |
| Placeholders.RestoreOfPreserveSingle | src/main/parser/DocumentBuilder.ts:104-139 | with exactly one placeholder the as-written and the corrected restore both give the body back |
| DocumentBuilder.PascalCaseSpec | src/main/parser/DocumentBuilder.ts:6-11 | the result is the key with its first character and every character after a `-` upper-cased, and nothing else changed |
| DocumentBuilder.PascalCaseShape | src/main/parser/DocumentBuilder.ts:6-11 | the result has as many `-` pieces as the key and the same lower-case form |
| DocumentBuilder.PascalCaseIdempotent | src/main/parser/DocumentBuilder.ts:6-11 | casing an already cased key changes nothing |
| DocumentBuilder.FindHeader | src/main/parser/DocumentBuilder.ts:62 | the first header from a position whose lower-cased key matches, or none when no later header matches |
| DocumentBuilder.GetHeader | src/main/parser/DocumentBuilder.ts:61-64 | none exactly when no key matches ignoring case; otherwise the value of the first matching header |
| DocumentBuilder.GetHeaderIgnoresCase | src/main/parser/DocumentBuilder.ts:61-64 | looking up two keys that differ only in case gives the same value |
| DocumentBuilder.FormLayout | src/main/parser/DocumentBuilder.ts:13-20 | the form body is the whitespace-free body's `&` parameters joined by `&` and a newline |
| DocumentBuilder.FormKeepsContent | src/main/parser/DocumentBuilder.ts:13-20 | apart from whitespace the form body is unchanged; a body without `&` only loses its whitespace |
| DocumentBuilder.FormIdempotent | src/main/parser/DocumentBuilder.ts:13-20 | formatting a formatted form body again changes nothing |
| DocumentBuilder.ReplaceCommentPrefix | src/main/parser/DocumentBuilder.ts:100-102 | a leading `//` becomes `#` and the rest is kept; other comments are unchanged; the result never starts with `//` |
| DocumentBuilder.CommentPrefixIdempotent | src/main/parser/DocumentBuilder.ts:100-102 | replacing the prefix twice is replacing it once |
| DocumentBuilder.BoundaryMatch | src/main/parser/DocumentBuilder.ts:27 | the leftmost position at or after a start where `boundary=` followed by a non-line-terminator stands, or none when there is no such position |
| DocumentBuilder.GetMultipartFormBoundary | src/main/parser/DocumentBuilder.ts:22-32 | the boundary is never empty and never spans a line terminator |
| DocumentBuilder.BoundaryOfContentType | src/main/parser/DocumentBuilder.ts:22-32 | a content type `multipart/form-data; boundary=b` gives the boundary `b` |
| DocumentBuilder.DefaultBoundaryWithoutContentType | src/main/parser/DocumentBuilder.ts:22-26 | without a content-type header, or when the first one is empty, the boundary is `----KulalaBoundary` |
| DocumentBuilder.GetFormatParser | src/main/parser/DocumentBuilder.ts:89-98 | GraphQL exactly when the request's `x-request-type` is `graphql`; JSON exactly when it is not and `content-type` is `application/json`; none without a request |
| DocumentBuilder.NextGraphQLMatch | src/main/parser/DocumentBuilder.ts:72 | a match found lies at or after the start, with its brace after its newline |
| DocumentBuilder.NextGraphQLMatchSound | src/main/parser/DocumentBuilder.ts:72 | what the search finds is a match at that position |
| DocumentBuilder.NextGraphQLMatchIs | src/main/parser/DocumentBuilder.ts:72 | the search finds the leftmost match |
| DocumentBuilder.NoNextGraphQLMatch | src/main/parser/DocumentBuilder.ts:72 | the search finds nothing when there is no match |
| DocumentBuilder.GraphQLQueryBeforeFirstMatch | src/main/parser/DocumentBuilder.ts:67-81 | with a first blank-line-then-brace at a position, the query is the trimmed text before it and there are variables |
| DocumentBuilder.GraphQLWithoutMatch | src/main/parser/DocumentBuilder.ts:83-86 | without such a match the query is the trimmed body and there are no variables |
| DocumentBuilder.GraphQLWithoutBrace | src/main/parser/DocumentBuilder.ts:83-86 | a body without `{` has no variables |
| DocumentBuilder.GraphQLVariablesOpenWithBrace | src/main/parser/DocumentBuilder.ts:74-80 | variables, when present, are non-empty and open with `{` |
| DocumentBuilder.FormatMultipartFormBody | src/main/parser/DocumentBuilder.ts:34-58 | the loop over the fields computes the multipart text for the header's boundary |
| DocumentBuilder.MultipartFraming | src/main/parser/DocumentBuilder.ts:34-58 | the text is empty exactly without fields; it opens with the delimiter and the first field's disposition line and closes with the last value and the closing delimiter |
| DocumentBuilder.FieldChunkFraming | src/main/parser/DocumentBuilder.ts:38-56 | each field's chunk opens with a delimiter and its disposition, and ends with its value, a delimiter for all but the last field, and the closing delimiter |
| DocumentBuilder.DispositionNamesKey | src/main/parser/DocumentBuilder.ts:41-49 | the disposition line names the field's key, and a file field's names its file |
| DocumentBuilder.AppendEach | src/main/parser/DocumentBuilder.ts:144-146 | a loop that appends one line per element computes the fold |
| DocumentBuilder.FormatRequestBody | src/main/parser/DocumentBuilder.ts:192-240 | the body is trimmed, formatted when asked and a parser applies, with the placeholders put back by the source's own restore, and laid out for form-urlencoded content; a formatter failure is an error |
| DocumentBuilder.FormatJsonKeepsBody | src/main/parser/DocumentBuilder.ts:222-230 | with a formatter that leaves the protected body as it is, JSON formatting gives back a trimmed body with at most one placeholder and no `""` |
| DocumentBuilder.FormatJsonLosesQuotes | src/main/parser/DocumentBuilder.ts:222-230 | with such a formatter, the JSON body `[{{a}}, {{b}}]` is written as `[{{a}}", "{{b}}]` |
| DocumentBuilder.EmitHeaders | src/main/parser/DocumentBuilder.ts:178-191 | the header loop appends one header line per header, in order, as the header text function says |
| DocumentBuilder.EmitRequest | src/main/parser/DocumentBuilder.ts:170-243 | the request part of a block is emitted as the request text function says |
| DocumentBuilder.HeaderKeyCasing | src/main/parser/DocumentBuilder.ts:178-190 | header keys only change letter case; HTTP/1.0 and 1.1 get Pascal case, HTTP/2 and 3 lower case, and other versions keep the key |
| DocumentBuilder.HeaderLineRoundTrip | src/main/parser/DocumentBuilder.ts:190 | a header line the builder writes splits back into the cased key and the value |
| DocumentBuilder.EmitBlock | src/main/parser/DocumentBuilder.ts:149-258 | one block is emitted as the block text function says |
| DocumentBuilder.BlockOutFraming | src/main/parser/DocumentBuilder.ts:150-258 | a block's text opens with its separator line, then its request line when it has a request, and ends with its response redirect when there is one |
| DocumentBuilder.EmitBlocks | src/main/parser/DocumentBuilder.ts:149-259 | the loop over the blocks computes the blocks' text, stopping at the first failure |
| DocumentBuilder.BlocksOutOk | src/main/parser/DocumentBuilder.ts:149-259 | without body formatting, or with a formatter that never fails, every block is emitted |
| DocumentBuilder.BuildText | src/main/parser/DocumentBuilder.ts:260-261 | the output ends with one newline and otherwise neither starts nor ends with whitespace |
| DocumentBuilder.Build | src/main/parser/DocumentBuilder.ts:141-262 | building computes the document text |
| DocumentBuilder.BuildSucceeds | src/main/parser/DocumentBuilder.ts:141-262 | building succeeds when bodies are not formatted or the formatter never fails |
| DocumentBuilder.BuildOpens | src/main/parser/DocumentBuilder.ts:144-153 | the output opens with the variable lines and then the first `###`, or with `###` when there are no variables |
| RendererParser.MatchRequestLine | src/renderer/src/parser/index.ts:15-16 | a recognised request line has a known method, a URL without whitespace and a known version |
| RendererParser.MatchRequestLineShape | src/renderer/src/parser/index.ts:15-16 | a recognised line is exactly method, space, URL and optionally space and version, the version then defaulting to `HTTP/1.1` |
| RendererParser.MatchRequestLineOf | src/renderer/src/parser/index.ts:15-16 | every line of that shape is recognised, with its parts |
| RendererParser.GetRequestLineFromBlock | src/renderer/src/parser/index.ts:24-37 | the loop over the lines yields the last request line |
| RendererParser.LastRequestLineSpec | src/renderer/src/parser/index.ts:24-37 | none exactly when no line matches; otherwise the match of some line after which no line matches |
| RendererParser.MatchNamed | src/renderer/src/parser/index.ts:42 | a matched line is the prefix, a word name, the separator and a one-line value |
| RendererParser.MatchNamedOf | src/renderer/src/parser/index.ts:64 | every line of that shape matches, giving its name and value |
| RendererParser.LastWinsDomain | src/renderer/src/parser/index.ts:44-54 | a name is in the map exactly when some line names it |
| RendererParser.LastWinsValue | src/renderer/src/parser/index.ts:47-51 | a name maps to the value of the last line that names it |
| RendererParser.GetVariablesFromDocument | src/renderer/src/parser/index.ts:44-54 | the loop over the document's lines computes the last-wins map of `@name=value` lines |
| RendererParser.GetMagicTypes | src/renderer/src/parser/index.ts:66-84 | the loop over the block's lines computes the last-wins map of `# @key value` lines |
| RendererParser.HeaderEntryNeedsColon | src/renderer/src/parser/index.ts:142-143 | a header entry exists exactly when the line has a colon |
| RendererParser.HeaderEntryOf | src/renderer/src/parser/index.ts:142-143 | the key and value are the trimmed first two colon-separated pieces; text after a second colon is dropped |
| RendererParser.ScanLineStep | src/renderer/src/parser/index.ts:122-144 | one line updates the scan as the line step says |
| RendererParser.GetHeadersAndBody | src/renderer/src/parser/index.ts:95-147 | the loop over the block's lines computes the headers and the trimmed body, or the error |
| RendererParser.ScanRequestAndHeaders | src/renderer/src/parser/index.ts:122-144 | lines before the request line are skipped and the header lines after it, request lines among them skipped, form the last-wins header map |
| RendererParser.HeadersOnly | src/renderer/src/parser/index.ts:95-147 | a block of preamble, request line and header lines has those headers, request lines among them skipped, and no body |
| RendererParser.HeadersThenBody | src/renderer/src/parser/index.ts:95-147 | the header lines before the first blank line form the last-wins headers; after it every line that is not a request line, each followed by a newline, forms the trimmed body, none when no such line follows |
| RendererParser.HeaderWithoutColon | src/renderer/src/parser/index.ts:142-143 | a non-blank header line without a colon makes the call fail |
| RendererParser.NoRequestLineNoHeaders | src/renderer/src/parser/index.ts:128-130 | a block without a request line has no headers and no body |
| RendererParser.SplitFromCaptures | src/renderer/src/parser/index.ts:180 | every captured separator text, at the odd positions of the split, lies on one line |
| RendererParser.RejoinSplitBlocks | src/renderer/src/parser/index.ts:6 | putting `###` back between each piece and its captured text gives the source back |
| RendererParser.PieceBlockSpec | src/renderer/src/parser/index.ts:182-197 | a piece yields no block exactly when it has no request line, and fails exactly when it has one and its headers throw; a block spans as many characters as its piece and carries that piece's last request line, magic types, headers and body; it is named by a non-empty magic `name`, otherwise `Block #` and its index plus one |
| RendererParser.ParseBlockAt | src/renderer/src/parser/index.ts:183-209 | the loop body computes the block of one piece |
| RendererParser.ParseBlocks | src/renderer/src/parser/index.ts:182-210 | the loop over the pieces computes the blocks, stopping at the first failure |
| RendererParser.BlocksUpToSound | src/renderer/src/parser/index.ts:182-210 | every block comes from its own piece |
| RendererParser.BlocksUpToOrdered | src/renderer/src/parser/index.ts:182-210 | block indexes increase strictly and stay below the pieces read |
| RendererParser.BlocksUpToComplete | src/renderer/src/parser/index.ts:182-210 | every piece with a request line has a block |
| RendererParser.GetParsedDocument | src/renderer/src/parser/index.ts:175-212 | parsing computes the variables and blocks of the source |
| RendererParser.FindBlock | src/renderer/src/parser/index.ts:214-219 | none exactly when no block has the index; otherwise the first block with it |
| RendererParser.GetBlockOfParsed | src/renderer/src/parser/index.ts:214-219 | in a parsed document, a block exists for an index exactly when that piece has a request line, and it is that piece's block |

## Left out

- Tree-sitter parsing of the text is not modelled: `DocumentParser.Parse` takes the syntax tree as input (node kind, text, children, error flag).
- The prettier formatter is external code. It is the `Formatter` parameter, which may fail. The error is modelled as the `Err` case where the source logs it and calls `process.exit(1)`.
- `build` is asynchronous. Its awaits are modelled as sequential calls.
- `constuctRequest` and `constructRequestAtBlockIndex` are not modelled. They build a browser `Headers`/`RequestInit` object, and there is nothing to prove about that beyond the field copy. `getBlock`, which the second one uses, is modelled.
- Case mapping (`toLowerCase`/`toUpperCase`) is modelled for ASCII letters only. Unicode case mapping is not modelled.
- JavaScript object and `Map` key order is not modelled. The renderer's header, variable and magic-type objects are `map`s, and placeholders are an ordered list of pairs.
- The database, file, IPC and preload code and the UI are not part of this model.
- Placeholders.RestoreOfPreserve: the round trip is proved only for bodies without the marker text and without `""`. A body holding the marker can have a key found inside its own text. Preserving deletes every `""`, including one the body already had, so such a body does not come back in the source either.
- DocumentBuilder.GraphQLQueryBeforeFirstMatch: the GraphQL split is stated by where the query and variables come from and how the variables open. That the formatted GraphQL body keeps its content is not stated, because it depends on the external formatter.
- RendererParser.PieceBlockSpec: lengths are counted in Unicode scalar values. JavaScript's `length` counts UTF-16 code units, so `start` and `end` differ from the program's when an earlier piece holds a character outside the Basic Multilingual Plane.
- RendererParser.LastWinsDomain: the variables, magic types and headers are Dafny `map`s. On a plain JavaScript object, assigning the key `__proto__` adds no entry, so `@__proto__=x`, `# @__proto__ x` and a `__proto__: x` header are absent in the program but present in the model.
- RendererParser.PieceBlockSpec: `start` is modelled as written, as the length of the previous split piece (a capture when the index is even), not as an offset into the source.
- `Strings.Split` models `split` on one character. The regex splits of the source (`\n\s*\n(\s*{)` and the `###` line) each have their own function.
- DocumentParser.FormatUrlLayout: the comment above `formatUrl` (src/main/parser/DocumentParser.ts:93-100) shows `?foo=bar` on its own indented line. The code keeps `?` and the first parameter on the base line, and the model follows the code.

## Findings

| source | as written | input that shows it | evidently intended | confidence | as-written member | corrected member |
|---|---|---|---|---|---|---|
| src/main/parser/DocumentBuilder.ts:122-139 | `restorePlaceholders` replaces the first key with its opening quote only, the last key with its closing quote only, and any middle key bare. With two or more separate placeholders, their quotes stay in the output. | the JSON body `[{{a}}, {{b}}]`, formatted with a formatter that keeps it, is written as `[{{a}}", "{{b}}]` | each quoted key is replaced by its original, so restoring undoes preserving | medium, not executed | Placeholders.AsWrittenLosesQuotes | Placeholders.RestoreOfPreserve |

The corrected restore is `Placeholders.RestorePlaceholdersCorrected`. The builder model (`DocumentBuilder.FormatJson`, `FormatGraphQL`, `FormatRequestBody`) keeps the source's restore, so the text it builds is the program's; `DocumentBuilder.FormatJsonLosesQuotes` shows the finding in a built body.
