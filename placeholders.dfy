/** The placeholder protection the builder wraps around an external formatter:
    each `{{name}}` / `{{$name}}` of a body is swapped for a quoted key that the
    formatter leaves alone, and put back afterwards. */
module Placeholders {
  import opened Wrappers
  import opened Strings

  /** The text every key starts with. */
  const KeyPrefix: String := "__" + Marker + "_"

  /** The part of a key that the restore relies on not meeting in a body. */
  const Marker: String := "KULALA_FMT_PLACEHOLDER"

  /** The key of the `n`-th placeholder of a body, counted from 0. */
  function Key(n: nat): (k: String)
    ensures |k| >= 28 && k[0] == '_' && k[1] == '_' && k[2..24] == Marker
    ensures '"' !in k
  {
    var d := NatToString(n);
    assert '"' !in d by {
      assert forall m :: 0 <= m < |d| ==> d[m] != '"';
    }
    assert '"' !in Marker;
    var k := "__" + Marker + ("_" + d + "__");
    assert k[2..24] == Marker;
    assert KeyPrefix + d + "__" == k;
    k
  }

  /** No key holds a closing brace, so a key cannot run on from the end of a
      placeholder. */
  lemma KeyHasNoBrace(n: nat)
    ensures '}' !in Key(n)
  {
    var d := NatToString(n);
    assert '}' !in d by {
      assert forall m :: 0 <= m < |d| ==> d[m] != '}';
    }
    assert '}' !in Marker;
    assert Key(n) == "__" + Marker + ("_" + d + "__");
  }

  /** A key in the quotes the callback puts around it. */
  function Quoted(n: nat): String {
    "\"" + Key(n) + "\""
  }

  // ---------------------------------------------------------------------------
  // preservePlaceholders
  // ---------------------------------------------------------------------------

  /** The end of the run of word characters starting at `j`. */
  function WordRunEnd(s: String, j: nat): (k: nat)
    requires j <= |s|
    ensures j <= k <= |s|
    ensures forall m :: j <= m < k ==> IsWordChar(s[m])
    ensures k == |s| || !IsWordChar(s[k])
    decreases |s| - j
  {
    if j < |s| && IsWordChar(s[j]) then WordRunEnd(s, j + 1) else j
  }

  /** A match of `(?<!")({{\$?\w+}})(?!")` starting at `i`: its end. The greedy
      `\w+` cannot give anything back, since `}` is not a word character. */
  function PlaceholderEnd(s: String, i: nat): (e: Option<nat>)
    requires i <= |s|
    ensures e.Some? ==> i + 5 <= e.value <= |s| && (e.value == |s| || s[e.value] != '"')
    ensures e.Some? ==> s[i] == '{' && s[i + 1] == '{' && s[e.value - 2] == '}' && s[e.value - 1] == '}'
    ensures e.Some? ==> i == 0 || s[i - 1] != '"'
  {
    if i + 2 <= |s| && s[i] == '{' && s[i + 1] == '{' && (i == 0 || s[i - 1] != '"') then
      var j := if i + 2 < |s| && s[i + 2] == '$' then i + 3 else i + 2;
      var k := WordRunEnd(s, j);
      if j < k && k + 2 <= |s| && s[k] == '}' && s[k + 1] == '}' && (k + 2 == |s| || s[k + 2] != '"') then
        Some(k + 2)
      else None
    else None
  }

  /** The text after the callback replacement, and the matched placeholders in
      the order the `Map` receives them. */
  datatype Protected = Protected(text: String, originals: seq<String>)

  /** The global replace from position `i` on, `n` placeholders already seen. */
  function ProtectFrom(s: String, i: nat, n: nat): Protected
    requires i <= |s|
    decreases |s| - i
  {
    if i == |s| then Protected([], [])
    else match PlaceholderEnd(s, i)
      case Some(e) =>
        var rest := ProtectFrom(s, e, n + 1);
        Protected(Quoted(n) + rest.text, [s[i..e]] + rest.originals)
      case None =>
        var rest := ProtectFrom(s, i + 1, n);
        Protected([s[i]] + rest.text, rest.originals)
  }

  lemma ProtectSome(s: String, i: nat, n: nat, e: nat)
    requires i < |s| && PlaceholderEnd(s, i) == Some(e)
    ensures ProtectFrom(s, i, n) ==
      Protected(Quoted(n) + ProtectFrom(s, e, n + 1).text, [s[i..e]] + ProtectFrom(s, e, n + 1).originals)
  {
  }

  lemma ProtectNone(s: String, i: nat, n: nat)
    requires i < |s| && PlaceholderEnd(s, i).None?
    ensures ProtectFrom(s, i, n) == Protected([s[i]] + ProtectFrom(s, i + 1, n).text, ProtectFrom(s, i + 1, n).originals)
  {
  }

  /** Every pair of adjacent double quotes removed, left to right. */
  function RemovePairs(t: String): (r: String)
    ensures |r| <= |t|
    decreases |t|
  {
    if |t| < 2 then t
    else if t[0] == '"' && t[1] == '"' then RemovePairs(t[2..])
    else [t[0]] + RemovePairs(t[1..])
  }

  /** The result of `preservePlaceholders`: the body, and the key-to-original
      entries in insertion order. */
  datatype Preserved = Preserved(replacedBody: String, placeholders: seq<(String, String)>)

  function KeyPairs(originals: seq<String>, n: nat): (r: seq<(String, String)>)
    ensures |r| == |originals|
    ensures forall k :: 0 <= k < |r| ==> r[k] == (Key(n + k), originals[k])
  {
    seq(|originals|, k requires 0 <= k < |originals| => (Key(n + k), originals[k]))
  }

  function Preserve(body: String): Preserved {
    var p := ProtectFrom(body, 0, 0);
    Preserved(RemovePairs(p.text), KeyPairs(p.originals, 0))
  }

  /** `preservePlaceholders`: the callback replace, then the removal of `""`. */
  method PreservePlaceholders(body: String) returns (replacedBody: String, placeholders: seq<(String, String)>)
    ensures Preserved(replacedBody, placeholders) == Preserve(body)
  {
    var text, originals := ReplacePlaceholders(body);
    replacedBody := RemoveQuotePairs(text);
    placeholders := KeyPairs(originals, 0);
  }

  /** The replace with the callback that numbers the keys by the map's size. */
  method ReplacePlaceholders(body: String) returns (text: String, originals: seq<String>)
    ensures Protected(text, originals) == ProtectFrom(body, 0, 0)
  {
    text := [];
    originals := [];
    var i := 0;
    while i < |body|
      invariant i <= |body|
      invariant text + ProtectFrom(body, i, |originals|).text == ProtectFrom(body, 0, 0).text
      invariant originals + ProtectFrom(body, i, |originals|).originals == ProtectFrom(body, 0, 0).originals
      decreases |body| - i
    {
      text, originals, i := ReplaceAt(body, i, text, originals);
    }
    assert text + [] == text && originals + [] == originals;
  }

  /** One turn of the replace: a placeholder at `i` becomes its quoted key,
      anything else is copied. What is left to do shrinks by what was done. */
  method ReplaceAt(body: String, i: nat, text: String, originals: seq<String>)
    returns (text': String, originals': seq<String>, i': nat)
    requires i < |body|
    ensures i < i' <= |body|
    ensures text' + ProtectFrom(body, i', |originals'|).text == text + ProtectFrom(body, i, |originals|).text
    ensures originals' + ProtectFrom(body, i', |originals'|).originals == originals + ProtectFrom(body, i, |originals|).originals
  {
    var e := PlaceholderEnd(body, i);
    if e.Some? {
      ReplaceSomeStep(body, i, e.value, text, originals);
      text', originals', i' := text + Quoted(|originals|), originals + [body[i..e.value]], e.value;
    } else {
      ReplaceNoneStep(body, i, text, originals);
      text', originals', i' := text + [body[i]], originals, i + 1;
    }
  }

  /** One placeholder replaced moves the loop of `ReplacePlaceholders` on. */
  lemma ReplaceSomeStep(body: String, i: nat, e: nat, text: String, originals: seq<String>)
    requires i < |body| && PlaceholderEnd(body, i) == Some(e)
    ensures var n := |originals|;
      (text + Quoted(n)) + ProtectFrom(body, e, |originals + [body[i..e]]|).text == text + ProtectFrom(body, i, n).text &&
      (originals + [body[i..e]]) + ProtectFrom(body, e, |originals + [body[i..e]]|).originals ==
        originals + ProtectFrom(body, i, n).originals
  {
    var n := |originals|;
    ProtectSome(body, i, n, e);
    assert |originals + [body[i..e]]| == n + 1;
    var rest := ProtectFrom(body, e, n + 1);
    Reassociate(text, Quoted(n), rest.text);
    Reassociate(originals, [body[i..e]], rest.originals);
  }

  /** One character copied moves the loop of `ReplacePlaceholders` on. */
  lemma ReplaceNoneStep(body: String, i: nat, text: String, originals: seq<String>)
    requires i < |body| && PlaceholderEnd(body, i).None?
    ensures (text + [body[i]]) + ProtectFrom(body, i + 1, |originals|).text == text + ProtectFrom(body, i, |originals|).text
    ensures originals + ProtectFrom(body, i + 1, |originals|).originals == originals + ProtectFrom(body, i, |originals|).originals
  {
    ProtectNone(body, i, |originals|);
    Reassociate(text, [body[i]], ProtectFrom(body, i + 1, |originals|).text);
  }

  /** Every pair of adjacent double quotes removed, left to right. */
  method RemoveQuotePairs(text: String) returns (r: String)
    ensures r == RemovePairs(text)
  {
    r := [];
    var j := 0;
    while j < |text|
      invariant j <= |text|
      invariant r + RemovePairs(text[j..]) == RemovePairs(text)
      decreases |text| - j
    {
      if j + 1 < |text| && text[j] == '"' && text[j + 1] == '"' {
        assert text[j..][2..] == text[j + 2..];
        j := j + 2;
      } else {
        if j + 1 == |text| {
          assert RemovePairs(text[j..]) == [text[j]];
        } else {
          assert text[j..][1..] == text[j + 1..];
        }
        r := r + [text[j]];
        j := j + 1;
      }
    }
    assert text[j..] == [];
  }

  // ---------------------------------------------------------------------------
  // `String.prototype.replace` with a string pattern
  // ---------------------------------------------------------------------------

  /** The leftmost occurrence of `pat` in `t` at or after `i`. */
  function FindFrom(t: String, pat: String, i: nat): (r: Option<nat>)
    ensures r.Some? ==> i <= r.value && OccursAt(t, pat, r.value)
    ensures r.Some? ==> forall q :: i <= q < r.value ==> !OccursAt(t, pat, q)
    ensures r.None? ==> forall q :: i <= q ==> !OccursAt(t, pat, q)
    decreases |t| - i
  {
    if i + |pat| > |t| then None
    else if OccursAt(t, pat, i) then Some(i)
    else FindFrom(t, pat, i + 1)
  }

  /** The leftmost occurrence is the one with none before it. */
  lemma FindFromIs(t: String, pat: String, p: nat)
    requires OccursAt(t, pat, p)
    requires forall q :: 0 <= q < p ==> !OccursAt(t, pat, q)
    ensures FindFrom(t, pat, 0) == Some(p)
  {
  }

  lemma SliceMiddle(a: String, x: String, b: String)
    ensures (a + (x + b))[|a|..|a| + |x|] == x
  {
  }

  /** A key in quotes after `a` occurs right after the opening quote. */
  lemma KeyAfterQuote(a: String, k: String, rest: String)
    ensures OccursAt(a + ("\"" + k + "\"" + rest), k, |a| + 1)
  {
    assert a + ("\"" + k + "\"" + rest) == (a + "\"") + (k + ("\"" + rest));
    SliceMiddle(a + "\"", k, "\"" + rest);
  }

  /** `t.replace(pat, rep)`: the first occurrence only. No replacement text here
      holds a `$` pattern JavaScript would expand. */
  function ReplaceFirst(t: String, pat: String, rep: String): String {
    match FindFrom(t, pat, 0)
    case None => t
    case Some(p) => t[..p] + rep + t[p + |pat|..]
  }

  // ---------------------------------------------------------------------------
  // restorePlaceholders, as written
  // ---------------------------------------------------------------------------

  /** The text searched for the `idx`-th key: a quote before it only for the first
      key, a quote after it only for the last. */
  function AsWrittenPattern(key: String, idx: nat, count: nat): String {
    (if idx == 0 then "\"" else "") + key + (if idx == count - 1 then "\"" else "")
  }

  function RestoreAsWrittenFrom(t: String, pairs: seq<(String, String)>, idx: nat): String
    requires idx <= |pairs|
    decreases |pairs| - idx
  {
    if idx == |pairs| then t
    else RestoreAsWrittenFrom(ReplaceFirst(t, AsWrittenPattern(pairs[idx].0, idx, |pairs|), pairs[idx].1), pairs, idx + 1)
  }

  /** `restorePlaceholders` as the source has it. */
  method RestorePlaceholdersAsWritten(formatted: String, pairs: seq<(String, String)>) returns (restored: String)
    ensures restored == RestoreAsWrittenFrom(formatted, pairs, 0)
    ensures pairs == [] ==> restored == formatted
  {
    restored := formatted;
    for idx := 0 to |pairs|
      invariant RestoreAsWrittenFrom(restored, pairs, idx) == RestoreAsWrittenFrom(formatted, pairs, 0)
    {
      var first := if idx == 0 then "\"" else "";
      var last := if idx == |pairs| - 1 then "\"" else "";
      restored := ReplaceFirst(restored, first + pairs[idx].0 + last, pairs[idx].1);
    }
  }

  /** The JSON array of two placeholders, as the body of a request. */
  const TwoPlaceholders: String := "[{{a}}, {{b}}]"

  /** That array once its placeholders are protected by the keys `k0` and `k1`. */
  function ArrayOfKeys(k0: String, k1: String): String {
    "[\"" + k0 + "\", \"" + k1 + "\"]"
  }

  /** Two placeholders with text between them: the source's restore leaves the
      quotes around the gap behind, so the body does not come back. */
  lemma AsWrittenLosesQuotes()
    ensures var p := Preserve(TwoPlaceholders);
      RestoreAsWrittenFrom(p.replacedBody, p.placeholders, 0) == "[{{a}}\", \"{{b}}]"
      && RestoreAsWrittenFrom(p.replacedBody, p.placeholders, 0) != TwoPlaceholders
  {
    PreserveTwoPlaceholders();
    RestoreAsWrittenTwo(Key(0), Key(1), []);
    assert ArrayOfKeys(Key(0), Key(1)) + [] == ArrayOfKeys(Key(0), Key(1));
    assert "[{{a}}\", \"{{b}}]" + [] == "[{{a}}\", \"{{b}}]";
    assert "[{{a}}\", \"{{b}}]"[6] != TwoPlaceholders[6];
  }

  lemma PreserveTwoPlaceholders()
    ensures Preserve(TwoPlaceholders) == Preserved(ArrayOfKeys(Key(0), Key(1)), [(Key(0), "{{a}}"), (Key(1), "{{b}}")])
  {
    var k0, k1 := Key(0), Key(1);
    ProtectTwoPlaceholders();
    ProtectNoPairConcrete(k0, k1);
    RemovePairsOfNoPair(ArrayOfKeys(k0, k1));
    var pairs := KeyPairs(["{{a}}", "{{b}}"], 0);
    assert pairs[0] == (k0, "{{a}}") && pairs[1] == (k1, "{{b}}");
    assert pairs == [(k0, "{{a}}"), (k1, "{{b}}")];
  }

  lemma ProtectTwoPlaceholders()
    ensures ProtectFrom(TwoPlaceholders, 0, 0) == Protected(ArrayOfKeys(Key(0), Key(1)), ["{{a}}", "{{b}}"])
  {
    var body := TwoPlaceholders;
    TwoPlaceholderEnds();
    var q0, q1 := Quoted(0), Quoted(1);
    assert ProtectFrom(body, 14, 2) == Protected([], []);
    ProtectNone(body, 13, 2);
    assert ProtectFrom(body, 13, 2) == Protected("]", []);
    ProtectSome(body, 8, 1, 13);
    assert ProtectFrom(body, 8, 1) == Protected(q1 + "]", ["{{b}}"]);
    ProtectNone(body, 7, 1);
    ProtectNone(body, 6, 1);
    CommaSpace(q1 + "]");
    assert ProtectFrom(body, 6, 1) == Protected(", " + (q1 + "]"), ["{{b}}"]);
    ProtectSome(body, 1, 0, 6);
    ProtectNone(body, 0, 0);
    ArrayOfQuoted(Key(0), Key(1));
  }

  lemma CommaSpace(u: String)
    ensures [','] + ([' '] + u) == ", " + u
  {
  }

  lemma ArrayOfQuoted(k0: String, k1: String)
    ensures "[" + (("\"" + k0 + "\"") + (", " + (("\"" + k1 + "\"") + "]"))) == ArrayOfKeys(k0, k1)
  {
  }

  lemma TwoPlaceholderEnds()
    ensures PlaceholderEnd(TwoPlaceholders, 0).None?
    ensures PlaceholderEnd(TwoPlaceholders, 1) == Some(6)
    ensures PlaceholderEnd(TwoPlaceholders, 6).None? && PlaceholderEnd(TwoPlaceholders, 7).None?
    ensures PlaceholderEnd(TwoPlaceholders, 8) == Some(13)
    ensures PlaceholderEnd(TwoPlaceholders, 13).None?
    ensures TwoPlaceholders[1..6] == "{{a}}" && TwoPlaceholders[8..13] == "{{b}}"
    ensures TwoPlaceholders[0] == '[' && TwoPlaceholders[6] == ',' && TwoPlaceholders[7] == ' ' && TwoPlaceholders[13] == ']'
  {
    var body := TwoPlaceholders;
    assert WordRunEnd(body, 3) == 4;
    assert WordRunEnd(body, 10) == 11;
  }

  /** The source's restore on the protected array, whatever follows it. */
  lemma RestoreAsWrittenTwo(k0: String, k1: String, tail: String)
    requires |k0| > 0 && |k1| > 0 && k1[0] == '_' && '"' !in k1
    ensures RestoreAsWrittenFrom(ArrayOfKeys(k0, k1) + tail, [(k0, "{{a}}"), (k1, "{{b}}")], 0)
      == "[{{a}}\", \"{{b}}]" + tail
  {
    var pairs := [(k0, "{{a}}"), (k1, "{{b}}")];
    var t := ArrayOfKeys(k0, k1) + tail;
    var t1 := "[{{a}}\", \"" + k1 + "\"]" + tail;
    assert AsWrittenPattern(k0, 0, 2) == "\"" + k0;
    AsWrittenFirstStep(k0, k1, tail);
    assert AsWrittenPattern(k1, 1, 2) == k1 + "\"";
    AsWrittenSecondStep(k1, tail);
    assert RestoreAsWrittenFrom(t, pairs, 0) == RestoreAsWrittenFrom(t1, pairs, 1);
    assert RestoreAsWrittenFrom(t1, pairs, 1) == RestoreAsWrittenFrom("[{{a}}\", \"{{b}}]" + tail, pairs, 2);
  }

  lemma AsWrittenFirstStep(k0: String, k1: String, tail: String)
    ensures ReplaceFirst(ArrayOfKeys(k0, k1) + tail, "\"" + k0, "{{a}}") == "[{{a}}\", \"" + k1 + "\"]" + tail
  {
    var t := ArrayOfKeys(k0, k1) + tail;
    var pat0 := "\"" + k0;
    var rest := "\", \"" + k1 + "\"]" + tail;
    FirstKeyFound(k0, k1, tail);
    ReplaceFirstAt(t, pat0, "{{a}}", 1);
    assert t == "[" + (pat0 + rest);
    assert t[..1] == "[";
    assert t[1 + |pat0|..] == rest;
    FirstStepText(k1, tail);
  }

  /** The first key, with its opening quote, is found right after the `[`. */
  lemma FirstKeyFound(k0: String, k1: String, tail: String)
    ensures FindFrom(ArrayOfKeys(k0, k1) + tail, "\"" + k0, 0) == Some(1)
  {
    var t := ArrayOfKeys(k0, k1) + tail;
    var pat0 := "\"" + k0;
    assert t == "[" + (pat0 + ("\", \"" + k1 + "\"]" + tail));
    SliceMiddle("[", pat0, "\", \"" + k1 + "\"]" + tail);
    assert OccursAt(t, pat0, 1);
    assert !OccursAt(t, pat0, 0) by {
      assert t[0] == '[';
      if |pat0| <= |t| {
        assert t[0..|pat0|][0] == t[0];
      }
    }
    FindFromIs(t, pat0, 1);
  }

  /** `ReplaceFirst` where the first occurrence is known. */
  lemma ReplaceFirstAt(t: String, pat: String, rep: String, p: nat)
    requires FindFrom(t, pat, 0) == Some(p)
    ensures p + |pat| <= |t|
    ensures ReplaceFirst(t, pat, rep) == t[..p] + rep + t[p + |pat|..]
  {
  }

  lemma FirstStepText(k1: String, tail: String)
    ensures "[" + "{{a}}" + ("\", \"" + k1 + "\"]" + tail) == "[{{a}}\", \"" + k1 + "\"]" + tail
  {
  }

  lemma AsWrittenSecondStep(k1: String, tail: String)
    requires |k1| > 0 && k1[0] == '_' && '"' !in k1
    ensures ReplaceFirst("[{{a}}\", \"" + k1 + "\"]" + tail, k1 + "\"", "{{b}}") == "[{{a}}\", \"{{b}}]" + tail
  {
    var t1 := "[{{a}}\", \"" + k1 + "\"]" + tail;
    var pat1 := k1 + "\"";
    assert t1 == "[{{a}}\", \"" + (pat1 + ("]" + tail));
    SliceMiddle("[{{a}}\", \"", pat1, "]" + tail);
    assert OccursAt(t1, pat1, 10);
    forall q | 0 <= q < 10 ensures !OccursAt(t1, pat1, q) {
      assert t1[q] != '_';
      if q + |pat1| <= |t1| {
        assert t1[q..q + |pat1|][0] == t1[q];
      }
    }
    FindFromIs(t1, pat1, 10);
    assert t1[..10] == "[{{a}}\", \"";
    assert t1[10 + |pat1|..] == "]" + tail;
  }

  lemma ProtectNoPairConcrete(k0: String, k1: String)
    requires '"' !in k0 && '"' !in k1 && |k0| > 0 && |k1| > 0
    ensures NoPair(ArrayOfKeys(k0, k1))
  {
    var q0, q1 := "\"" + k0 + "\"", "\"" + k1 + "\"";
    QuotedNoPair(k0);
    QuotedNoPair(k1);
    NoPairJoin("[", q0);
    NoPairJoin(", ", q1);
    NoPairJoin(", " + q1, "]");
    NoPairJoin("[" + q0, ", " + q1 + "]");
    assert ("[" + q0) + (", " + q1 + "]") == ArrayOfKeys(k0, k1);
  }

  // ---------------------------------------------------------------------------
  // restorePlaceholders, corrected
  // ---------------------------------------------------------------------------

  /** Put `original` back for the first occurrence of `key`, taking a quote
      directly before and a quote directly after it along. */
  function RestoreOne(t: String, key: String, original: String): String {
    match FindFrom(t, key, 0)
    case None => t
    case Some(p) => t[..SpanStart(t, p)] + original + t[SpanEnd(t, p + |key|)..]
  }

  /** Where the text replaced for a key found at `p` starts: at a quote right
      before it, or at the key. */
  function SpanStart(t: String, p: nat): (from: nat)
    requires p <= |t|
    ensures from <= p
  {
    if p > 0 && t[p - 1] == '"' then p - 1 else p
  }

  /** Where the text replaced for a key ending at `q` ends: after a quote right
      after it, or at the key's end. */
  function SpanEnd(t: String, q: nat): (to: nat)
    requires q <= |t|
    ensures q <= to <= |t|
  {
    if q < |t| && t[q] == '"' then q + 1 else q
  }

  function Restore(t: String, pairs: seq<(String, String)>): String
    decreases |pairs|
  {
    if pairs == [] then t else Restore(RestoreOne(t, pairs[0].0, pairs[0].1), pairs[1..])
  }

  /** `restorePlaceholders` with each key's own quotes removed with it. */
  method RestorePlaceholdersCorrected(formatted: String, pairs: seq<(String, String)>) returns (restored: String)
    ensures restored == Restore(formatted, pairs)
  {
    restored := formatted;
    for idx := 0 to |pairs|
      invariant Restore(restored, pairs[idx..]) == Restore(formatted, pairs)
    {
      assert pairs[idx..][1..] == pairs[idx + 1..];
      restored := RestoreOne(restored, pairs[idx].0, pairs[idx].1);
    }
  }

  /** No two quotes in a row. */
  predicate NoPair(t: String) {
    forall j :: 0 <= j < |t| - 1 ==> !(t[j] == '"' && t[j + 1] == '"')
  }

  lemma {:induction false} RemovePairsOfNoPair(t: String)
    requires NoPair(t)
    ensures RemovePairs(t) == t
    decreases |t|
  {
    if |t| >= 2 {
      RemovePairsOfNoPair(t[1..]);
    }
  }

  lemma NoPairJoin(a: String, b: String)
    requires NoPair(a) && NoPair(b)
    requires a != [] && b != [] ==> !(a[|a| - 1] == '"' && b[0] == '"')
    ensures NoPair(a + b)
  {
    var t := a + b;
    forall j | 0 <= j < |t| - 1 ensures !(t[j] == '"' && t[j + 1] == '"') {
      if j + 1 < |a| {
        assert t[j] == a[j] && t[j + 1] == a[j + 1];
      } else if j >= |a| {
        assert t[j] == b[j - |a|] && t[j + 1] == b[j + 1 - |a|];
      }
    }
  }

  lemma QuotedNoPair(k: String)
    requires |k| > 0 && '"' !in k
    ensures NoPair("\"" + k + "\"")
  {
    var h := "\"" + k + "\"";
    forall j | 0 <= j < |h| - 1 ensures !(h[j] == '"' && h[j + 1] == '"') {
      if j < |k| {
        assert h[j + 1] == k[j];
      } else {
        assert h[j] == k[j - 1];
      }
    }
  }

  /** The shape of every key: two underscores, then the marker, and no quote. */
  predicate KeyShape(k: String) {
    |k| >= 24 && k[0] == '_' && k[1] == '_' && k[2..24] == Marker && '"' !in k
  }

  /** A key cannot start anywhere before the quote that follows marker-free text. */
  lemma NoKeyBefore(a: String, k: String, rest: String, p: nat)
    requires KeyShape(k) && !Contains(a, Marker) && p <= |a|
    ensures !OccursAt(a + ("\"" + k + "\"" + rest), k, p)
  {
    var t := a + ("\"" + k + "\"" + rest);
    if p + |k| <= |t| {
      var w := t[p..p + |k|];
      if p + 2 >= |a| {
        if p + 2 == |a| {
          assert t[p + 2] == '"';
        } else if p + 1 == |a| {
          assert t[p + 2] == k[0];
        } else {
          assert t[p + 2] == k[1];
        }
        assert w[2] != k[2];
      } else if p + 24 <= |a| {
        MarkerInsideKey(a, t, k, p);
      } else {
        assert t[|a|] == '"';
        assert w[|a| - p] != k[|a| - p];
      }
    }
  }

  /** A key that starts well inside marker-free `a` cannot match there, since
      its marker would lie inside `a`. */
  lemma MarkerInsideKey(a: String, t: String, k: String, p: nat)
    requires KeyShape(k) && !Contains(a, Marker)
    requires p + 24 <= |a| <= |t| && t[..|a|] == a && p + |k| <= |t|
    ensures t[p..p + |k|] != k
  {
    var m: nat := p + 2;
    if t[p..p + |k|] == k {
      forall i | 0 <= i < 22 ensures a[m + i] == Marker[i] {
        assert a[m + i] == t[m + i] == k[2 + i];
      }
      assert OccursAt(a, Marker, m);
    }
  }

  /** The first occurrence of a key placed after a quote that follows text
      without the marker is that one. */
  lemma KeyFoundAfter(a: String, k: String, rest: String)
    requires KeyShape(k) && !Contains(a, Marker)
    ensures FindFrom(a + ("\"" + k + "\"" + rest), k, 0) == Some(|a| + 1)
  {
    var t := a + ("\"" + k + "\"" + rest);
    KeyAfterQuote(a, k, rest);
    forall p | 0 <= p < |a| + 1 ensures !OccursAt(t, k, p) {
      NoKeyBefore(a, k, rest, p);
    }
    FindFromIs(t, k, |a| + 1);
  }

  /** `RestoreOne` on a key found in its own quotes replaces key and quotes. */
  lemma RestoreOneAt(a: String, k: String, original: String, rest: String)
    requires FindFrom(a + ("\"" + k + "\"" + rest), k, 0) == Some(|a| + 1)
    ensures RestoreOne(a + ("\"" + k + "\"" + rest), k, original) == a + original + rest
  {
    var t := a + ("\"" + k + "\"" + rest);
    var p := |a| + 1;
    assert SpanStart(t, p) == |a| && SpanEnd(t, p + |k|) == p + |k| + 1 by {
      assert t[p - 1] == '"' && t[p + |k|] == '"';
    }
    assert t[..|a|] == a && t[p + |k| + 1..] == rest;
    RestoreOneSpan(t, k, original, p);
  }

  /** Putting back one key that sits in its own quotes after marker-free text. */
  lemma RestoreOneQuoted(a: String, n: nat, original: String, rest: String)
    requires !Contains(a, Marker)
    ensures RestoreOne(a + (Quoted(n) + rest), Key(n), original) == a + original + rest
  {
    var k := Key(n);
    assert KeyShape(k);
    KeyFoundAfter(a, k, rest);
    RestoreOneAt(a, k, original, rest);
  }

  lemma NoMarkerPrefix(s: String, i: nat)
    requires i <= |s| && !Contains(s, Marker)
    ensures !Contains(s[..i], Marker)
  {
    var a := s[..i];
    forall q: nat | q <= |a| && OccursAt(a, Marker, q) ensures false {
      assert s[q..q + |Marker|] == a[q..q + |Marker|];
      assert OccursAt(s, Marker, q);
    }
  }

  lemma PrefixJoin(s: String, i: nat, e: nat, mid: String, rest: String)
    requires i <= e <= |s|
    ensures s[..i] + (mid + rest) == s[..i] + mid + rest
    ensures s[..i] + s[i..e] + rest == s[..e] + rest
    ensures e == i + 1 ==> s[..i] + ([s[i]] + rest) == s[..e] + rest
  {
    assert s[..i] + s[i..e] == s[..e];
  }

  lemma KeyPairsTail(first: String, rest: seq<String>, n: nat)
    ensures KeyPairs([first] + rest, n) == [(Key(n), first)] + KeyPairs(rest, n + 1)
  {
  }

  lemma RestoreCons(t: String, k: String, o: String, pairs: seq<(String, String)>)
    ensures Restore(t, [(k, o)] + pairs) == Restore(RestoreOne(t, k, o), pairs)
  {
    assert ([(k, o)] + pairs)[1..] == pairs;
  }

  // ---------------------------------------------------------------------------
  // Placeholders side by side
  // ---------------------------------------------------------------------------

  /** The protected text from `i` on with its `""` removed, for a body without
      `""`: two keys side by side lose the closing quote of the first and the
      opening quote of the second. `afterKey` says that a placeholder ends at
      `i`. */
  function Joined(s: String, i: nat, n: nat, afterKey: bool): String
    requires i <= |s|
    decreases |s| - i
  {
    if i == |s| then []
    else match PlaceholderEnd(s, i)
      case Some(e) =>
        var rest := (if PlaceholderEnd(s, e).Some? then [] else "\"") + Joined(s, e, n + 1, true);
        if afterKey then Key(n) + rest else "\"" + (Key(n) + rest)
      case None => [s[i]] + Joined(s, i + 1, n, false)
  }

  lemma RemovePairsKeep(c: char, w: String)
    requires c != '"' || w == [] || w[0] != '"'
    ensures RemovePairs([c] + w) == [c] + RemovePairs(w)
  {
    assert ([c] + w)[1..] == w;
  }

  lemma {:induction false} RemovePairsNoQuote(k: String, w: String)
    requires '"' !in k
    ensures RemovePairs(k + w) == k + RemovePairs(w)
    decreases |k|
  {
    if k == [] {
      assert k + w == w;
    } else {
      assert k + w == [k[0]] + (k[1..] + w);
      if k[1..] != [] { assert (k[1..] + w)[0] == k[1]; }
      RemovePairsKeep(k[0], k[1..] + w);
      RemovePairsNoQuote(k[1..], w);
      assert k + RemovePairs(w) == [k[0]] + (k[1..] + RemovePairs(w));
    }
  }

  lemma RemovePairsDrop(w: String)
    ensures RemovePairs("\"\"" + w) == RemovePairs(w)
  {
    assert ("\"\"" + w)[2..] == w;
  }

  /** The protected text opens with a quote exactly when a placeholder or a
      quote of the body opens the rest of the body. */
  lemma ProtectFirst(s: String, i: nat, n: nat)
    requires i < |s|
    ensures |ProtectFrom(s, i, n).text| > 0
    ensures ProtectFrom(s, i, n).text[0] == '"' <==> PlaceholderEnd(s, i).Some? || s[i] == '"'
  {
    match PlaceholderEnd(s, i)
    case Some(e) => ProtectSome(s, i, n, e);
    case None => ProtectNone(s, i, n);
  }

  /** What removing `""` does after the closing quote of a key: the quote goes
      with the opening quote of a key that follows, and stays otherwise. */
  predicate JoinsAfterQuote(s: String, i: nat, n: nat)
    requires i <= |s|
  {
    RemovePairs("\"" + ProtectFrom(s, i, n).text) ==
      (if PlaceholderEnd(s, i).Some? then [] else "\"") + Joined(s, i, n, true)
  }

  /** Removing `""` around a quoted key: the key's closing quote meets what
      follows as the quote before `u` does. */
  lemma RemovePairsQuotedKey(k: String, u: String)
    requires k != [] && '"' !in k
    ensures RemovePairs("\"" + k + "\"" + u) == "\"" + (k + RemovePairs("\"" + u))
  {
    assert "\"" + k + "\"" + u == ['"'] + (k + ("\"" + u));
    assert RemovePairs(['"'] + (k + ("\"" + u))) == ['"'] + RemovePairs(k + ("\"" + u)) by {
      assert (k + ("\"" + u))[0] == k[0];
      RemovePairsKeep('"', k + ("\"" + u));
    }
    RemovePairsNoQuote(k, "\"" + u);
  }

  /** After the closing quote of a key, the opening quote of the next key goes
      with it. */
  lemma RemovePairsQuoteQuotedKey(k: String, u: String)
    requires '"' !in k
    ensures RemovePairs("\"" + ("\"" + k + "\"" + u)) == k + RemovePairs("\"" + u)
  {
    assert "\"" + ("\"" + k + "\"" + u) == "\"\"" + (k + ("\"" + u));
    RemovePairsDrop(k + ("\"" + u));
    RemovePairsNoQuote(k, "\"" + u);
  }

  /** A placeholder at `i`: its quoted key opens the protected text. */
  lemma JoinedSomeStep(s: String, i: nat, n: nat, e: nat)
    requires i < |s| && PlaceholderEnd(s, i) == Some(e)
    requires JoinsAfterQuote(s, e, n + 1)
    ensures RemovePairs(ProtectFrom(s, i, n).text) == Joined(s, i, n, false)
    ensures JoinsAfterQuote(s, i, n)
  {
    var k, u := Key(n), ProtectFrom(s, e, n + 1).text;
    var x := (if PlaceholderEnd(s, e).Some? then [] else "\"") + Joined(s, e, n + 1, true);
    ProtectSome(s, i, n, e);
    RemovePairsQuotedKey(k, u);
    RemovePairsQuoteQuotedKey(k, u);
  }

  /** No placeholder at `i`: the character opens the protected text. */
  lemma JoinedNoneStep(s: String, i: nat, n: nat)
    requires i < |s| && NoPair(s) && PlaceholderEnd(s, i).None?
    requires RemovePairs(ProtectFrom(s, i + 1, n).text) == Joined(s, i + 1, n, false)
    ensures RemovePairs(ProtectFrom(s, i, n).text) == Joined(s, i, n, false)
    ensures s[i] != '"' ==> JoinsAfterQuote(s, i, n)
  {
    var u := ProtectFrom(s, i + 1, n).text;
    ProtectNone(s, i, n);
    if i + 1 < |s| {
      ProtectFirst(s, i + 1, n);
      assert !(s[i] == '"' && s[i + 1] == '"');
    }
    RemovePairsKeep(s[i], u);
    assert Joined(s, i, n, false) == [s[i]] + Joined(s, i + 1, n, false) == Joined(s, i, n, true);
    if s[i] != '"' {
      assert "\"" + ProtectFrom(s, i, n).text == ['"'] + ([s[i]] + u);
      RemovePairsKeep('"', [s[i]] + u);
    }
  }

  /** Removing `""` from the protected text of a body without `""` joins keys
      that stand side by side. */
  lemma {:induction false} RemovePairsOfProtected(s: String, i: nat, n: nat)
    requires i <= |s| && NoPair(s)
    ensures RemovePairs(ProtectFrom(s, i, n).text) == Joined(s, i, n, false)
    ensures i == |s| || PlaceholderEnd(s, i).Some? || s[i] != '"' ==> JoinsAfterQuote(s, i, n)
    decreases |s| - i, 1
  {
    if i < |s| {
      if PlaceholderEnd(s, i).Some? {
        RemovePairsOfProtectedAtKey(s, i, n);
      } else {
        RemovePairsOfProtectedAtChar(s, i, n);
      }
    }
  }

  /** `RemovePairsOfProtected` where a placeholder starts. */
  lemma {:induction false} RemovePairsOfProtectedAtKey(s: String, i: nat, n: nat)
    requires i < |s| && NoPair(s) && PlaceholderEnd(s, i).Some?
    ensures RemovePairs(ProtectFrom(s, i, n).text) == Joined(s, i, n, false)
    ensures JoinsAfterQuote(s, i, n)
    decreases |s| - i, 0
  {
    var e := PlaceholderEnd(s, i).value;
    RemovePairsOfProtected(s, e, n + 1);
    JoinedSomeStep(s, i, n, e);
  }

  /** `RemovePairsOfProtected` at a character of the body. */
  lemma {:induction false} RemovePairsOfProtectedAtChar(s: String, i: nat, n: nat)
    requires i < |s| && NoPair(s) && PlaceholderEnd(s, i).None?
    ensures RemovePairs(ProtectFrom(s, i, n).text) == Joined(s, i, n, false)
    ensures s[i] != '"' ==> JoinsAfterQuote(s, i, n)
    decreases |s| - i, 0
  {
    RemovePairsOfProtected(s, i + 1, n);
    JoinedNoneStep(s, i, n);
  }

  /** Text without the marker stays without it when a character that is not in
      the marker is added. */
  lemma NoMarkerAppend(a: String, c: char)
    requires !Contains(a, Marker) && c !in Marker
    ensures !Contains(a + [c], Marker)
  {
    var t := a + [c];
    forall q: nat | q <= |t| ensures !OccursAt(t, Marker, q) {
      if q + |Marker| <= |a| {
        assert a[q..q + |Marker|] == t[q..q + |Marker|];
        assert !OccursAt(a, Marker, q);
      } else if q + |Marker| <= |t| {
        assert t[q..q + |Marker|][|a| - q] == c;
      }
    }
  }

  /** The first occurrence of a key after marker-free text whose last character
      cannot be part of a key is the one right there. */
  lemma KeyFoundAt(t: String, a: String, k: String, rest: String)
    requires KeyShape(k) && !Contains(a, Marker) && a != [] && a[|a| - 1] !in k
    requires t == a + (k + rest)
    ensures FindFrom(t, k, 0) == Some(|a|)
  {
    assert t[|a|..|a| + |k|] == k;
    forall p | 0 <= p < |a| ensures !OccursAt(t, k, p) {
      if p + |k| <= |t| {
        if p + 24 <= |a| {
          assert t[..|a|] == a;
          MarkerInsideKey(a, t, k, p);
        } else {
          assert t[p..p + |k|][|a| - 1 - p] == a[|a| - 1];
        }
      }
    }
    FindFromIs(t, k, |a|);
  }

  /** Where `Joined` puts a key, the replaced span is the key with its own
      quotes. */
  lemma JoinedSpan(pre: String, open: String, k: String, close: String, rest: String)
    requires open == [] || open == "\""
    requires close == [] || close == "\""
    requires open == [] && pre != [] ==> pre[|pre| - 1] != '"'
    requires close == [] ==> rest != [] && rest[0] != '"'
    ensures SpanStart(pre + open + (k + (close + rest)), |pre| + |open|) == |pre|
    ensures SpanEnd(pre + open + (k + (close + rest)), |pre| + |open| + |k|) == |pre| + |open| + |k| + |close|
    ensures (pre + open + (k + (close + rest)))[..|pre|] == pre
    ensures (pre + open + (k + (close + rest)))[|pre| + |open| + |k| + |close|..] == rest
  {
    SpanStartOfOpen(pre, open, k + (close + rest));
    SpanEndOfClose(pre + open, k, close, rest);
    JoinedSlices(pre, open, k, close, rest);
  }

  /** The opening quote, when there is one, is where the span starts. */
  lemma SpanStartOfOpen(pre: String, open: String, u: String)
    requires open == [] || open == "\""
    requires open == [] && pre != [] ==> pre[|pre| - 1] != '"'
    ensures SpanStart(pre + open + u, |pre| + |open|) == |pre|
  {
    var t := pre + open + u;
    var p := |pre| + |open|;
    if open != [] { assert t[p - 1] == '"'; }
    else if pre != [] { assert t[p - 1] == pre[|pre| - 1]; }
  }

  /** The closing quote, when there is one, is where the span ends. */
  lemma SpanEndOfClose(a: String, k: String, close: String, rest: String)
    requires close == [] || close == "\""
    requires close == [] ==> rest != [] && rest[0] != '"'
    ensures SpanEnd(a + (k + (close + rest)), |a| + |k|) == |a| + |k| + |close|
  {
    var t := a + (k + (close + rest));
    var q := |a| + |k|;
    if close != [] { assert t[q] == '"'; }
    else { assert t[q] == rest[0]; }
  }

  /** What lies before and after the replaced span. */
  lemma JoinedSlices(pre: String, open: String, k: String, close: String, rest: String)
    ensures (pre + open + (k + (close + rest)))[..|pre|] == pre
    ensures (pre + open + (k + (close + rest)))[|pre| + |open| + |k| + |close|..] == rest
  {
  }


  /** `RestoreOne` replaces the span around the first occurrence of the key. */
  lemma RestoreOneSpan(t: String, k: String, o: String, p: nat)
    requires FindFrom(t, k, 0) == Some(p)
    ensures p + |k| <= |t|
    ensures RestoreOne(t, k, o) == t[..SpanStart(t, p)] + o + t[SpanEnd(t, p + |k|)..]
  {
  }

  /** Where `Joined` puts a key, with or without its own quotes, the span
      `RestoreOne` replaces is exactly the key and those quotes. */
  lemma RestoreKeyIn(t: String, pre: String, open: String, k: String, o: String, close: String, rest: String)
    requires open == [] || open == "\""
    requires close == [] || close == "\""
    requires open == [] && pre != [] ==> pre[|pre| - 1] != '"'
    requires close == [] ==> rest != [] && rest[0] != '"'
    requires t == pre + open + (k + (close + rest))
    ensures |pre| + |open| + |k| <= |t|
    ensures t[..SpanStart(t, |pre| + |open|)] + o + t[SpanEnd(t, |pre| + |open| + |k|)..] == pre + o + rest
  {
    JoinedSpan(pre, open, k, close, rest);
  }

  /** The quote `Joined` keeps before a key: none right after another key. */
  function OpenQuote(afterKey: bool): (q: String)
    ensures q == [] || q == "\""
  {
    if afterKey then [] else "\""
  }

  /** The quote `Joined` keeps after a key ending at `e`: none when another
      key follows at once. */
  function CloseQuote(s: String, e: nat): (q: String)
    requires e <= |s|
    ensures q == [] || q == "\""
  {
    if PlaceholderEnd(s, e).Some? then [] else "\""
  }

  /** `Joined` at a placeholder: the key, in the quotes it keeps. */
  lemma JoinedAtKey(s: String, i: nat, n: nat, afterKey: bool, e: nat)
    requires i < |s| && PlaceholderEnd(s, i) == Some(e)
    ensures Joined(s, i, n, afterKey) ==
      OpenQuote(afterKey) + (Key(n) + (CloseQuote(s, e) + Joined(s, e, n + 1, true)))
    ensures CloseQuote(s, e) == [] ==> Joined(s, e, n + 1, true) != [] && Joined(s, e, n + 1, true)[0] == '_'
  {
    if afterKey {
      assert [] + Joined(s, i, n, afterKey) == Joined(s, i, n, afterKey);
    }
    if PlaceholderEnd(s, e).Some? {
      assert Joined(s, e, n + 1, true)[0] == Key(n + 1)[0];
    }
  }

  /** The joined text around the key of a placeholder at `i`, and the
      characters on either side of the key's span. */
  lemma JoinedKeyLayout(s: String, i: nat, n: nat, afterKey: bool, e: nat)
    requires i < |s| && PlaceholderEnd(s, i) == Some(e)
    requires afterKey ==> 0 < i && s[i - 1] == '}'
    ensures s[..i] + Joined(s, i, n, afterKey) ==
      s[..i] + OpenQuote(afterKey) + (Key(n) + (CloseQuote(s, e) + Joined(s, e, n + 1, true)))
    ensures OpenQuote(afterKey) == [] && s[..i] != [] ==> s[..i][|s[..i]| - 1] != '"'
    ensures CloseQuote(s, e) == [] ==> Joined(s, e, n + 1, true) != [] && Joined(s, e, n + 1, true)[0] != '"'
  {
    JoinedAtKey(s, i, n, afterKey, e);
    AppendAssoc(s[..i], OpenQuote(afterKey), Key(n) + (CloseQuote(s, e) + Joined(s, e, n + 1, true)));
    BeforeKeyChar(s, i, afterKey);
  }

  lemma AppendAssoc(a: String, b: String, c: String)
    ensures a + (b + c) == a + b + c
  {
  }

  /** Without an opening quote, the character before the key is the `}` that
      ends the placeholder before it. */
  lemma BeforeKeyChar(s: String, i: nat, afterKey: bool)
    requires i <= |s|
    requires afterKey ==> 0 < i && s[i - 1] == '}'
    ensures OpenQuote(afterKey) == [] && s[..i] != [] ==> s[..i][|s[..i]| - 1] != '"'
  {
    if afterKey {
      assert s[..i][|s[..i]| - 1] == s[i - 1];
    }
  }

  /** The text before a key in the joined text is free of the marker and ends
      in a character no key holds. */
  lemma BeforeKeyClean(s: String, i: nat, n: nat, afterKey: bool)
    requires i < |s| && !Contains(s, Marker)
    requires afterKey ==> 0 < i && s[i - 1] == '}'
    ensures var a := s[..i] + OpenQuote(afterKey);
      !Contains(a, Marker) && a != [] && a[|a| - 1] !in Key(n)
  {
    NoMarkerPrefix(s, i);
    if afterKey {
      KeyHasNoBrace(n);
      assert s[..i] + OpenQuote(afterKey) == s[..i];
    } else {
      NoMarkerAppend(s[..i], '"');
    }
  }

  /** In the joined text the key of a placeholder at `i` is found right after
      the body before it and the key's opening quote, if it kept one. */
  lemma KeyFoundInJoined(s: String, i: nat, n: nat, afterKey: bool, e: nat)
    requires i < |s| && !Contains(s, Marker) && PlaceholderEnd(s, i) == Some(e)
    requires afterKey ==> 0 < i && s[i - 1] == '}'
    ensures FindFrom(s[..i] + Joined(s, i, n, afterKey), Key(n), 0) == Some(|s[..i]| + |OpenQuote(afterKey)|)
  {
    var a := s[..i] + OpenQuote(afterKey);
    var u := CloseQuote(s, e) + Joined(s, e, n + 1, true);
    JoinedKeyLayout(s, i, n, afterKey, e);
    BeforeKeyClean(s, i, n, afterKey);
    assert KeyShape(Key(n));
    KeyFoundAt(s[..i] + Joined(s, i, n, afterKey), a, Key(n), u);
  }

  /** Key `k` stands in `t` where `Joined` puts it: after `pre` and the
      opening quote it kept, before the closing quote it kept and `rest`, and
      it is the first occurrence. */
  predicate KeyLaidOut(t: String, pre: String, open: String, k: String, close: String, rest: String) {
    && (open == [] || open == "\"")
    && (close == [] || close == "\"")
    && (open == [] && pre != [] ==> pre[|pre| - 1] != '"')
    && (close == [] ==> rest != [] && rest[0] != '"')
    && t == pre + open + (k + (close + rest))
    && FindFrom(t, k, 0) == Some(|pre| + |open|)
  }

  /** `RestoreOne` on a key found where `Joined` puts it. */
  lemma RestoreJoinedKey(t: String, pre: String, open: String, k: String, o: String, close: String, rest: String)
    requires KeyLaidOut(t, pre, open, k, close, rest)
    ensures RestoreOne(t, k, o) == pre + o + rest
  {
    RestoreKeyIn(t, pre, open, k, o, close, rest);
    RestoreOneThen(t, k, o, |pre| + |open|, pre + o + rest);
  }

  /** `RestoreOne` gives what replacing the span of the first occurrence gives. */
  lemma RestoreOneThen(t: String, k: String, o: String, p: nat, x: String)
    requires FindFrom(t, k, 0) == Some(p)
    requires p + |k| <= |t| && t[..SpanStart(t, p)] + o + t[SpanEnd(t, p + |k|)..] == x
    ensures RestoreOne(t, k, o) == x
  {
    RestoreOneSpan(t, k, o, p);
  }

  /** The key of a placeholder at `i` stands in the joined text as
      `KeyLaidOut` says. */
  lemma JoinedKeyLaidOut(s: String, i: nat, n: nat, afterKey: bool, e: nat)
    requires i < |s| && !Contains(s, Marker) && PlaceholderEnd(s, i) == Some(e)
    requires afterKey ==> 0 < i && s[i - 1] == '}'
    ensures KeyLaidOut(s[..i] + Joined(s, i, n, afterKey), s[..i], OpenQuote(afterKey), Key(n), CloseQuote(s, e), Joined(s, e, n + 1, true))
  {
    JoinedKeyLayout(s, i, n, afterKey, e);
    KeyFoundInJoined(s, i, n, afterKey, e);
  }

  /** Putting back the key of a placeholder at `i` in the joined text restores
      the placeholder, and the joined rest from its end on follows. */
  lemma JoinedKeyRestored(s: String, i: nat, n: nat, afterKey: bool, e: nat)
    requires i < |s| && !Contains(s, Marker) && PlaceholderEnd(s, i) == Some(e)
    requires afterKey ==> 0 < i && s[i - 1] == '}'
    ensures RestoreOne(s[..i] + Joined(s, i, n, afterKey), Key(n), s[i..e]) == s[..e] + Joined(s, e, n + 1, true)
  {
    var rest := Joined(s, e, n + 1, true);
    JoinedKeyLaidOut(s, i, n, afterKey, e);
    RestoreJoinedKey(s[..i] + Joined(s, i, n, afterKey), s[..i], OpenQuote(afterKey), Key(n), s[i..e], CloseQuote(s, e), rest);
    PrefixJoin(s, i, e, [], rest);
  }

  /** The round trip from position `i`: putting back every key of the joined
      rest of the body gives the body. */
  lemma {:induction false} RestoreJoined(s: String, i: nat, n: nat, afterKey: bool)
    requires i <= |s| && !Contains(s, Marker)
    requires afterKey ==> 0 < i && s[i - 1] == '}'
    ensures Restore(s[..i] + Joined(s, i, n, afterKey), KeyPairs(ProtectFrom(s, i, n).originals, n)) == s
    decreases |s| - i
  {
    if i == |s| {
      assert s[..i] + [] == s;
    } else {
      match PlaceholderEnd(s, i)
      case Some(e) =>
        var o := s[i..e];
        var later := ProtectFrom(s, e, n + 1).originals;
        JoinedKeyRestored(s, i, n, afterKey, e);
        ProtectSome(s, i, n, e);
        KeyPairsTail(o, later, n);
        RestoreCons(s[..i] + Joined(s, i, n, afterKey), Key(n), o, KeyPairs(later, n + 1));
        RestoreJoined(s, e, n + 1, true);
      case None =>
        ProtectNone(s, i, n);
        PrefixJoin(s, i, i + 1, [s[i]], Joined(s, i + 1, n, false));
        RestoreJoined(s, i + 1, n, false);
    }
  }

  /** The corrected restore of what preserving made gives back the body, for a
      body without `""` and without the key marker. */
  lemma RestoreOfPreserve(body: String)
    requires !Contains(body, Marker)
    requires NoPair(body)
    ensures Restore(Preserve(body).replacedBody, Preserve(body).placeholders) == body
  {
    RemovePairsOfProtected(body, 0, 0);
    RestoreJoined(body, 0, 0, false);
    assert body[..0] + Joined(body, 0, 0, false) == Joined(body, 0, 0, false);
  }

  // ---------------------------------------------------------------------------
  // One placeholder: the source's restore and the corrected one agree
  // ---------------------------------------------------------------------------

  /** Without a placeholder from `j` on, protecting changes nothing. */
  lemma {:induction false} ProtectNoOriginals(s: String, j: nat, n: nat)
    requires j <= |s| && ProtectFrom(s, j, n).originals == []
    ensures ProtectFrom(s, j, n).text == s[j..]
    decreases |s| - j
  {
    if j < |s| {
      match PlaceholderEnd(s, j)
      case Some(e) =>
        ProtectSome(s, j, n, e);
      case None =>
        ProtectNone(s, j, n);
        ProtectNoOriginals(s, j + 1, n);
        assert s[j..] == [s[j]] + s[j + 1..];
    }
  }

  /** With exactly one placeholder from `i` on, the protected text is the body
      with that placeholder's quoted key in its place. */
  lemma {:induction false} SingleShape(s: String, i: nat, n: nat) returns (p: nat, e: nat)
    requires i <= |s| && |ProtectFrom(s, i, n).originals| == 1
    ensures i <= p < |s| && PlaceholderEnd(s, p) == Some(e)
    ensures ProtectFrom(s, i, n) == Protected(s[i..p] + (Quoted(n) + s[e..]), [s[p..e]])
    decreases |s| - i, 1
  {
    assert i < |s|;
    if PlaceholderEnd(s, i).Some? {
      p, e := i, PlaceholderEnd(s, i).value;
      SingleShapeHere(s, i, n, e);
    } else {
      p, e := SingleShapeLater(s, i, n);
    }
  }

  /** `SingleShape` when the one placeholder starts at `i`. */
  lemma SingleShapeHere(s: String, i: nat, n: nat, e: nat)
    requires i < |s| && PlaceholderEnd(s, i) == Some(e) && |ProtectFrom(s, i, n).originals| == 1
    ensures ProtectFrom(s, i, n) == Protected(s[i..i] + (Quoted(n) + s[e..]), [s[i..e]])
  {
    ProtectSome(s, i, n, e);
    ProtectNoOriginals(s, e, n + 1);
    assert s[i..i] == [];
  }

  /** `SingleShape` when the one placeholder starts after `i`. */
  lemma {:induction false} SingleShapeLater(s: String, i: nat, n: nat) returns (p: nat, e: nat)
    requires i < |s| && PlaceholderEnd(s, i).None? && |ProtectFrom(s, i, n).originals| == 1
    ensures i <= p < |s| && PlaceholderEnd(s, p) == Some(e)
    ensures ProtectFrom(s, i, n) == Protected(s[i..p] + (Quoted(n) + s[e..]), [s[p..e]])
    decreases |s| - i, 0
  {
    ProtectNone(s, i, n);
    p, e := SingleShape(s, i + 1, n);
    var q := Quoted(n) + s[e..];
    AppendAssoc([s[i]], s[i + 1..p], q);
    assert s[i..p] == [s[i]] + s[i + 1..p];
    assert [s[i]] + (s[i + 1..p] + q) == s[i..p] + q;
  }

  lemma NoPairSlices(s: String, p: nat, e: nat)
    requires p <= e <= |s| && NoPair(s)
    ensures NoPair(s[..p]) && NoPair(s[e..])
  {
    var a, b := s[..p], s[e..];
    forall j | 0 <= j < |a| - 1 ensures !(a[j] == '"' && a[j + 1] == '"') {
      assert a[j] == s[j] && a[j + 1] == s[j + 1];
    }
    forall j | 0 <= j < |b| - 1 ensures !(b[j] == '"' && b[j + 1] == '"') {
      assert b[j] == s[e + j] && b[j + 1] == s[e + j + 1];
    }
  }

  /** A quoted pattern that starts one position before a place where the bare
      pattern does not occur does not occur either. */
  lemma QuotedMismatch(t: String, k: String, p: nat)
    requires !OccursAt(t, k, p + 1)
    ensures !OccursAt(t, "\"" + k + "\"", p)
  {
    var qk := "\"" + k + "\"";
    if p + |qk| <= |t| {
      var u := t[p + 1..p + 1 + |k|];
      assert u != k;
      var m :| 0 <= m < |k| && u[m] != k[m];
      assert t[p..p + |qk|][1 + m] == u[m];
      assert qk[1 + m] == k[m];
    }
  }

  lemma QuotedKeyAt(a: String, k: String, rest: String)
    ensures OccursAt(a + ("\"" + k + "\"" + rest), "\"" + k + "\"", |a|)
  {
    assert a + ("\"" + k + "\"" + rest) == a + (("\"" + k + "\"") + rest);
    SliceMiddle(a, "\"" + k + "\"", rest);
  }

  lemma NoQuotedKeyBefore(a: String, k: String, rest: String, p: nat)
    requires KeyShape(k) && !Contains(a, Marker) && p < |a|
    ensures !OccursAt(a + ("\"" + k + "\"" + rest), "\"" + k + "\"", p)
  {
    NoKeyBefore(a, k, rest, p + 1);
    QuotedMismatch(a + ("\"" + k + "\"" + rest), k, p);
  }

  /** The quoted key, as the source searches for it, is found where the key is. */
  lemma QuotedKeyFoundAfter(a: String, k: String, rest: String)
    requires KeyShape(k) && !Contains(a, Marker)
    ensures FindFrom(a + ("\"" + k + "\"" + rest), "\"" + k + "\"", 0) == Some(|a|)
  {
    var t := a + ("\"" + k + "\"" + rest);
    var qk := "\"" + k + "\"";
    QuotedKeyAt(a, k, rest);
    forall p | 0 <= p < |a| ensures !OccursAt(t, qk, p) {
      NoQuotedKeyBefore(a, k, rest, p);
    }
    FindFromIs(t, qk, |a|);
  }

  /** The source's restore with a single entry puts back a key in its quotes. */
  lemma RestoreAsWrittenOnePair(a: String, k: String, original: String, rest: String)
    requires KeyShape(k) && !Contains(a, Marker)
    ensures RestoreAsWrittenFrom(a + ("\"" + k + "\"" + rest), [(k, original)], 0) == a + original + rest
  {
    var t := a + ("\"" + k + "\"" + rest);
    var pairs := [(k, original)];
    QuotedKeyFoundAfter(a, k, rest);
    assert AsWrittenPattern(k, 0, 1) == "\"" + k + "\"";
    assert ReplaceFirst(t, "\"" + k + "\"", original) == a + original + rest by {
      assert t[..|a|] == a;
      assert t[|a| + |k| + 2..] == rest;
    }
    assert RestoreAsWrittenFrom(t, pairs, 0) == RestoreAsWrittenFrom(a + original + rest, pairs, 1);
  }

  /** A body with a single placeholder, preserved: the body around the quoted
      key, and one entry. */
  lemma PreserveSingle(body: String) returns (p: nat, e: nat)
    requires NoPair(body) && |Preserve(body).placeholders| == 1
    ensures p <= e <= |body| && body == body[..p] + body[p..e] + body[e..]
    ensures Preserve(body) == Preserved(body[..p] + (Quoted(0) + body[e..]), [(Key(0), body[p..e])])
  {
    p, e := SingleShape(body, 0, 0);
    var a, b := body[..p], body[e..];
    assert body[0..p] == a;
    SingleNoPair(body, p, e);
    RemovePairsOfNoPair(a + (Quoted(0) + b));
    SliceThree(body, p, e);
  }

  lemma SliceThree(s: String, p: nat, e: nat)
    requires p <= e <= |s|
    ensures s == s[..p] + s[p..e] + s[e..]
  {
    assert s[..p] + s[p..e] == s[..e];
  }

  lemma SingleNoPair(body: String, p: nat, e: nat)
    requires p <= |body| && NoPair(body) && PlaceholderEnd(body, p) == Some(e)
    ensures NoPair(body[..p] + (Quoted(0) + body[e..]))
  {
    var a, b := body[..p], body[e..];
    NoPairSlices(body, p, e);
    QuotedNoPair(Key(0));
    NoPairJoin(Quoted(0), b);
    NoPairJoin(a, Quoted(0) + b);
  }

  /** With a single placeholder and no `""` in the body, `restorePlaceholders` as
      written gives back the body, and so does the corrected restore. */
  lemma RestoreOfPreserveSingle(body: String)
    requires !Contains(body, Marker) && NoPair(body)
    requires |Preserve(body).placeholders| == 1
    ensures RestoreAsWrittenFrom(Preserve(body).replacedBody, Preserve(body).placeholders, 0) == body
    ensures Restore(Preserve(body).replacedBody, Preserve(body).placeholders) == body
  {
    var p, e := PreserveSingle(body);
    var a, o, b := body[..p], body[p..e], body[e..];
    var k := Key(0);
    assert KeyShape(k);
    NoMarkerPrefix(body, p);
    RestoreAsWrittenOnePair(a, k, o, b);
    RestoreOneQuoted(a, 0, o, b);
    assert Restore(a + (Quoted(0) + b), [(k, o)]) == Restore(a + o + b, []);
  }
}
