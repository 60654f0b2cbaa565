/** The JavaScript string operations the three parsers rely on, over `seq<char>`:
    the whitespace class of `\s` and `String.prototype.trim`, `split` on one
    character, `join`, prefix tests, ASCII case mapping and decimal rendering. */
module Strings {

  type String = seq<char>

  /** The code points JavaScript counts as WhiteSpace or LineTerminator: the set
      matched by `\s` and removed by `trim()`. */
  predicate IsSpace(c: char) {
    c == ' ' || c == '\t' || c == '\n' || c == '\r' || c == '\U{B}' || c == '\U{C}'
    || c == '\U{A0}' || c == '\U{1680}' || ('\U{2000}' <= c <= '\U{200A}')
    || c == '\U{2028}' || c == '\U{2029}' || c == '\U{202F}' || c == '\U{205F}'
    || c == '\U{3000}' || c == '\U{FEFF}'
  }

  /** The characters `.` does not match and at which `^`/`$` stop in multiline mode. */
  predicate IsLineTerminator(c: char) {
    c == '\n' || c == '\r' || c == '\U{2028}' || c == '\U{2029}'
  }

  /** The class `\w`. */
  predicate IsWordChar(c: char) {
    ('a' <= c <= 'z') || ('A' <= c <= 'Z') || ('0' <= c <= '9') || c == '_'
  }

  predicate NoSpace(s: String) {
    forall k :: 0 <= k < |s| ==> !IsSpace(s[k])
  }

  predicate AllSpaces(s: String) {
    forall k :: 0 <= k < |s| ==> IsSpace(s[k])
  }

  /** `r` is `s` with whitespace cut from its front and its back only. */
  predicate OuterSpacesCut(s: String, r: String) {
    exists a, b :: 0 <= a <= b <= |s| && r == s[a..b] && AllSpaces(s[..a]) && AllSpaces(s[b..])
  }

  predicate StartsWith(s: String, prefix: String) {
    |prefix| <= |s| && s[..|prefix|] == prefix
  }

  predicate OccursAt(s: String, t: String, i: nat) {
    i + |t| <= |s| && s[i..i + |t|] == t
  }

  predicate Contains(s: String, t: String) {
    exists i: nat | i <= |s| :: OccursAt(s, t, i)
  }

  lemma Reassociate<T>(a: seq<T>, x: seq<T>, r: seq<T>)
    ensures (a + x) + r == a + (x + r)
  {
  }

  /** `s.trimStart()` */
  function TrimStart(s: String): (r: String)
    ensures |r| <= |s|
    ensures r == [] || !IsSpace(r[0])
  {
    if s != [] && IsSpace(s[0]) then TrimStart(s[1..]) else s
  }

  /** `TrimStart` keeps a suffix. */
  lemma {:induction false} TrimStartSuffix(s: String)
    ensures TrimStart(s) == s[|s| - |TrimStart(s)|..]
  {
    if s != [] && IsSpace(s[0]) {
      TrimStartSuffix(s[1..]);
    }
  }

  /** What `TrimStart` cuts off is whitespace. */
  lemma {:induction false} TrimStartCutsSpaces(s: String)
    ensures forall k :: 0 <= k < |s| - |TrimStart(s)| ==> IsSpace(s[k])
  {
    if s != [] && IsSpace(s[0]) {
      TrimStartCutsSpaces(s[1..]);
      forall k | 0 <= k < |s| - |TrimStart(s)| ensures IsSpace(s[k]) {
        if k > 0 { assert s[k] == s[1..][k - 1]; }
      }
    }
  }

  /** `s.trimEnd()` */
  function TrimEnd(s: String): (r: String)
    ensures |r| <= |s|
    ensures r == [] || !IsSpace(r[|r| - 1])
  {
    if s != [] && IsSpace(s[|s| - 1]) then TrimEnd(s[..|s| - 1]) else s
  }

  /** `TrimEnd` keeps a prefix. */
  lemma {:induction false} TrimEndPrefix(s: String)
    ensures TrimEnd(s) == s[..|TrimEnd(s)|]
  {
    if s != [] && IsSpace(s[|s| - 1]) {
      TrimEndPrefix(s[..|s| - 1]);
    }
  }

  /** What `TrimEnd` cuts off is whitespace. */
  lemma {:induction false} TrimEndCutsSpaces(s: String)
    ensures forall k :: |TrimEnd(s)| <= k < |s| ==> IsSpace(s[k])
  {
    if s != [] && IsSpace(s[|s| - 1]) {
      TrimEndCutsSpaces(s[..|s| - 1]);
      forall k | |TrimEnd(s)| <= k < |s| ensures IsSpace(s[k]) {
        if k < |s| - 1 { assert s[k] == s[..|s| - 1][k]; }
      }
    }
  }

  lemma TrimStartSkip(c: char, t: String)
    requires IsSpace(c)
    ensures TrimStart([c] + t) == TrimStart(t)
  {
    assert ([c] + t)[1..] == t;
  }

  lemma TrimEndSkip(t: String, c: char)
    requires IsSpace(c)
    ensures TrimEnd(t + [c]) == TrimEnd(t)
  {
    assert (t + [c])[..|t|] == t;
  }

  /** A trimmed text keeps its trimmed form when whitespace is put around it. */
  lemma TrimPadded(v: String, before: char, after: char)
    requires IsSpace(before) && IsSpace(after)
    requires Trim(v) == v
    ensures Trim([before] + v + [after]) == v
  {
    TrimPaddedStart(before, v, after);
    TrimPaddedEnd(v, after);
  }

  lemma TrimPaddedStart(before: char, v: String, after: char)
    requires IsSpace(before)
    ensures TrimStart([before] + v + [after]) == TrimStart(v + [after])
  {
    Reassociate([before], v, [after]);
    TrimStartSkip(before, v + [after]);
  }

  lemma TrimOfSpace(c: char)
    requires IsSpace(c)
    ensures TrimEnd(TrimStart([c])) == []
  {
    assert [c] == [c] + [];
    TrimStartSkip(c, []);
  }

  lemma TrimPaddedEnd(v: String, after: char)
    requires IsSpace(after) && Trim(v) == v
    ensures TrimEnd(TrimStart(v + [after])) == v
  {
    if v == [] {
      TrimOfSpace(after);
      return;
    }
    assert TrimStart(v) == v;
    assert TrimStart(v + [after]) == v + [after];
    TrimEndSkip(v, after);
  }

  /** `s.trim()`; `TrimCutsOuterSpaces` states what it means. */
  function Trim(s: String): (r: String)
    ensures r == [] || (!IsSpace(r[0]) && !IsSpace(r[|r| - 1]))
    ensures |r| <= |s|
  {
    TrimEndPrefix(TrimStart(s));
    TrimEnd(TrimStart(s))
  }

  /** Trimming gives `s` with only its leading and trailing whitespace cut, and
      all of it: what is left neither starts nor ends with whitespace. */
  lemma TrimCutsOuterSpaces(s: String)
    ensures OuterSpacesCut(s, Trim(s))
    ensures Trim(s) == [] || (!IsSpace(Trim(s)[0]) && !IsSpace(Trim(s)[|Trim(s)| - 1]))
  {
    var u := TrimStart(s);
    var r := TrimEnd(u);
    var a := |s| - |u|;
    var b := a + |r|;
    TrimStartSuffix(s);
    TrimStartCutsSpaces(s);
    TrimEndPrefix(u);
    TrimEndCutsSpaces(u);
    assert r == s[a..b];
    forall k | 0 <= k < a ensures IsSpace(s[..a][k]) {
      assert s[..a][k] == s[k];
    }
    forall m | 0 <= m < |s| - b ensures IsSpace(s[b..][m]) {
      assert s[b..][m] == u[|r| + m];
    }
    assert AllSpaces(s[..a]) && AllSpaces(s[b..]);
  }

  /** Trimming a text that opens with `p`, where `p` starts and ends with a
      non-space character, leaves a text that opens with `p`. */
  lemma TrimOpensWith(s: String, p: String)
    requires p != [] && !IsSpace(p[0]) && !IsSpace(p[|p| - 1])
    requires StartsWith(s, p)
    ensures StartsWith(Trim(s), p)
  {
    assert s[0] == p[0];
    assert TrimStart(s) == s;
    TrimEndPrefix(s);
    TrimEndCutsSpaces(s);
  }

  /** Leading whitespace before such a `p` is trimmed away. */
  lemma {:induction false} TrimOpens(s: String, spaces: String, p: String)
    requires forall k :: 0 <= k < |spaces| ==> IsSpace(spaces[k])
    requires p != [] && !IsSpace(p[0]) && !IsSpace(p[|p| - 1])
    requires StartsWith(s, spaces + p)
    ensures StartsWith(Trim(s), p)
    decreases |spaces|
  {
    if spaces == [] {
      assert spaces + p == p;
      TrimOpensWith(s, p);
    } else {
      StartsWithTail(s, spaces, p);
      TrimSkip(s);
      TrimOpens(s[1..], spaces[1..], p);
    }
  }



  /** A text opening with `x + p` opens with `x[1..] + p` one step on. */
  lemma StartsWithTail(s: String, x: String, p: String)
    requires x != [] && StartsWith(s, x + p)
    ensures s[0] == x[0] && StartsWith(s[1..], x[1..] + p)
  {
    assert s[0] == (x + p)[0];
    assert (x + p)[1..] == x[1..] + p;
    assert s[1..][..|x| - 1 + |p|] == s[..|x| + |p|][1..];
  }

  lemma TrimSkip(s: String)
    requires s != [] && IsSpace(s[0])
    ensures Trim(s) == Trim(s[1..])
  {
  }

  lemma {:induction false} TrimOfTrimmed(s: String)
    requires s == [] || (!IsSpace(s[0]) && !IsSpace(s[|s| - 1]))
    ensures Trim(s) == s
  {
  }

  lemma {:induction false} TrimOfNoSpace(s: String)
    requires NoSpace(s)
    ensures Trim(s) == s
  {
    if s != [] { TrimOfTrimmed(s); }
  }

  /** Every whitespace character removed, as a global `\s+` replacement with nothing does. */
  function RemoveSpaces(s: String): (r: String)
    ensures |r| <= |s|
  {
    if s == [] then []
    else if IsSpace(s[0]) then RemoveSpaces(s[1..])
    else [s[0]] + RemoveSpaces(s[1..])
  }

  /** What is left has no whitespace. */
  lemma {:induction false} RemoveSpacesLeavesNoSpace(s: String)
    ensures NoSpace(RemoveSpaces(s))
  {
    if s != [] {
      RemoveSpacesLeavesNoSpace(s[1..]);
    }
  }

  lemma {:induction false} RemoveSpacesOfNoSpace(s: String)
    requires NoSpace(s)
    ensures RemoveSpaces(s) == s
  {
    if s != [] {
      assert NoSpace(s[1..]);
      RemoveSpacesOfNoSpace(s[1..]);
    }
  }

  lemma {:induction false} RemoveSpacesAppend(a: String, b: String)
    ensures RemoveSpaces(a + b) == RemoveSpaces(a) + RemoveSpaces(b)
  {
    if a != [] {
      assert (a + b)[0] == a[0] && (a + b)[1..] == a[1..] + b;
      RemoveSpacesAppend(a[1..], b);
    } else {
      assert a + b == b;
    }
  }

  /** `parts.join(sep)` */
  function Join(parts: seq<String>, sep: String): String {
    if |parts| == 0 then []
    else if |parts| == 1 then parts[0]
    else parts[0] + sep + Join(parts[1..], sep)
  }

  /** `s.split(c)` for a one-character separator `c`: the maximal pieces between
      occurrences of `c`, always at least one (possibly empty) piece. */
  function Split(s: String, c: char): (parts: seq<String>)
    ensures |parts| >= 1
    ensures forall i :: 0 <= i < |parts| ==> c !in parts[i]
    ensures Join(parts, [c]) == s
  {
    if s == [] then [[]]
    else
      var rest := Split(s[1..], c);
      if s[0] == c then [[]] + rest
      else
        var parts := [[s[0]] + rest[0]] + rest[1..];
        assert Join(parts, [c]) == [s[0]] + Join(rest, [c]) by {
          if |rest| > 1 {
            assert parts[1..] == rest[1..];
          }
        }
        parts
  }

  /** The index of the first `c` in `s`, or `|s|` when there is none. */
  function FirstIndex(s: String, c: char): (i: nat)
    ensures i <= |s|
    ensures c !in s[..i]
    ensures i < |s| ==> s[i] == c
  {
    if s == [] then 0
    else if s[0] == c then 0
    else 1 + FirstIndex(s[1..], c)
  }

  /** What `split` yields around the first separator: the piece before it, and the
      remaining pieces joined back, which is everything after it. */
  lemma {:induction false} SplitHead(s: String, c: char)
    ensures Split(s, c)[0] == s[..FirstIndex(s, c)]
    ensures FirstIndex(s, c) == |s| <==> |Split(s, c)| == 1
    ensures |Split(s, c)| > 1 ==> Join(Split(s, c)[1..], [c]) == s[FirstIndex(s, c) + 1..]
  {
    var parts := Split(s, c);
    var p0 := parts[0];
    if |parts| == 1 {
      assert s == p0;
      assert c !in s;
      FirstIndexAbsent(s, c);
    } else {
      assert s == p0 + [c] + Join(parts[1..], [c]);
      FirstIndexAfter(p0, c, Join(parts[1..], [c]));
    }
  }

  lemma {:induction false} FirstIndexAbsent(s: String, c: char)
    requires c !in s
    ensures FirstIndex(s, c) == |s|
  {
    if s != [] {
      FirstIndexAbsent(s[1..], c);
    }
  }

  lemma {:induction false} FirstIndexAfter(p: String, c: char, rest: String)
    requires c !in p
    ensures FirstIndex(p + [c] + rest, c) == |p|
  {
    if p != [] {
      assert (p + [c] + rest)[1..] == p[1..] + [c] + rest;
      FirstIndexAfter(p[1..], c, rest);
    }
  }

  /** `split` of a piece, the separator and a rest. */
  lemma {:induction false} SplitCons(p: String, c: char, rest: String)
    requires c !in p
    ensures Split(p + [c] + rest, c) == [p] + Split(rest, c)
  {
    if p == [] {
      assert p + [c] + rest == [c] + rest;
      assert ([c] + rest)[1..] == rest;
    } else {
      assert (p + [c] + rest)[1..] == p[1..] + [c] + rest;
      SplitCons(p[1..], c, rest);
      assert [p[0]] + p[1..] == p;
    }
  }

  lemma {:induction false} SplitNone(s: String, c: char)
    requires c !in s
    ensures Split(s, c) == [s]
  {
    SplitHead(s, c);
    FirstIndexAbsent(s, c);
  }

  /** `split` is the only way to cut a string into separator-free pieces. */
  lemma {:induction false} SplitUnique(parts: seq<String>, c: char)
    requires |parts| >= 1
    requires forall i :: 0 <= i < |parts| ==> c !in parts[i]
    ensures Split(Join(parts, [c]), c) == parts
  {
    if |parts| == 1 {
      SplitNone(parts[0], c);
    } else {
      SplitUnique(parts[1..], c);
      SplitCons(parts[0], c, Join(parts[1..], [c]));
      assert [parts[0]] + parts[1..] == parts;
    }
  }

  /** The pieces after the first separator are the split of what follows it. */
  lemma {:induction false} SplitTail(s: String, c: char)
    requires FirstIndex(s, c) < |s|
    ensures |Split(s, c)| > 1
    ensures Split(s, c)[1..] == Split(s[FirstIndex(s, c) + 1..], c)
  {
    var parts := Split(s, c);
    SplitHead(s, c);
    SplitUnique(parts[1..], c);
  }

  /** Lines each followed by a newline. */
  function ConcatLines(lines: seq<String>): String {
    if lines == [] then [] else lines[0] + "\n" + ConcatLines(lines[1..])
  }

  lemma {:induction false} SplitConcatLines(lines: seq<String>)
    requires forall i :: 0 <= i < |lines| ==> '\n' !in lines[i]
    ensures Split(ConcatLines(lines), '\n') == lines + [[]]
  {
    if lines != [] {
      SplitConcatLines(lines[1..]);
      SplitCons(lines[0], '\n', ConcatLines(lines[1..]));
      assert lines == [lines[0]] + lines[1..];
    }
  }

  function Lower(c: char): (r: char)
    ensures 'A' <= c <= 'Z' ==> 'a' <= r <= 'z'
    ensures !('A' <= c <= 'Z') ==> r == c
  {
    if 'A' <= c <= 'Z' then (c as int + 32) as char else c
  }

  function Upper(c: char): (r: char)
    ensures 'a' <= c <= 'z' ==> 'A' <= r <= 'Z'
    ensures !('a' <= c <= 'z') ==> r == c
    ensures Lower(r) == Lower(c)
  {
    if 'a' <= c <= 'z' then (c as int - 32) as char else c
  }

  /** `s.toLowerCase()`, for the ASCII letters. */
  function ToLower(s: String): (r: String)
    ensures |r| == |s|
    ensures forall k :: 0 <= k < |s| ==> r[k] == Lower(s[k])
  {
    seq(|s|, k requires 0 <= k < |s| => Lower(s[k]))
  }

  function Digit(d: nat): (c: char)
    requires d < 10
    ensures '0' <= c <= '9'
  {
    ('0' as int + d) as char
  }

  /** The decimal rendering JavaScript gives a non-negative integer. */
  function NatToString(n: nat): (r: String)
    ensures |r| >= 1
    ensures forall k :: 0 <= k < |r| ==> '0' <= r[k] <= '9'
  {
    if n < 10 then [Digit(n)] else NatToString(n / 10) + [Digit(n % 10)]
  }

  predicate EndsWith(s: String, suffix: String) {
    |suffix| <= |s| && s[|s| - |suffix|..] == suffix
  }

  // ---------------------------------------------------------------------------
  // Blank-line collapsing: a newline, whitespace, a newline become one newline
  // ---------------------------------------------------------------------------

  /** The end of the run of whitespace that starts at `i`. */
  function SpaceRunEnd(s: String, i: nat): (j: nat)
    requires i <= |s|
    ensures i <= j <= |s|
    decreases |s| - i
  {
    if i < |s| && IsSpace(s[i]) then SpaceRunEnd(s, i + 1) else i
  }

  /** The run is whitespace and stops at the first other character. */
  lemma {:induction false} SpaceRunEndSpaces(s: String, i: nat)
    requires i <= |s|
    ensures forall k :: i <= k < SpaceRunEnd(s, i) ==> IsSpace(s[k])
    ensures SpaceRunEnd(s, i) == |s| || !IsSpace(s[SpaceRunEnd(s, i)])
    decreases |s| - i
  {
    if i < |s| && IsSpace(s[i]) {
      SpaceRunEndSpaces(s, i + 1);
    }
  }

  lemma {:induction false} SpaceRunEndIs(s: String, i: nat, j: nat)
    requires i <= j <= |s|
    requires forall k :: i <= k < j ==> IsSpace(s[k])
    requires j == |s| || !IsSpace(s[j])
    ensures SpaceRunEnd(s, i) == j
    decreases j - i
  {
    if i < j {
      SpaceRunEndIs(s, i + 1, j);
    }
  }

  /** The last index in `[lo, hi)` holding `c`, or `lo - 1` when there is none. */
  function LastIndexIn(s: String, lo: nat, hi: nat, c: char): (k: int)
    requires lo <= hi <= |s|
    ensures lo - 1 <= k < hi
    ensures k >= lo ==> s[k] == c && c !in s[k + 1..hi]
    ensures k < lo ==> c !in s[lo..hi]
    decreases hi - lo
  {
    if hi == lo then lo - 1
    else if s[hi - 1] == c then hi - 1
    else
      var k := LastIndexIn(s, lo, hi - 1, c);
      assert s[lo..hi] == s[lo..hi - 1] + [s[hi - 1]];
      assert k >= lo ==> s[k + 1..hi] == s[k + 1..hi - 1] + [s[hi - 1]];
      k
  }

  /** A match of `\n\s*\n` starts at the head of `t`. */
  predicate BlankLineAt(t: String) {
    |t| > 0 && t[0] == '\n' && '\n' in t[1..SpaceRunEnd(t, 1)]
  }

  /** No two newlines are separated by whitespace only. */
  predicate NoBlankLine(s: String) {
    forall i :: 0 <= i < |s| ==> !BlankLineAt(s[i..])
  }

  /** Where scanning resumes after a head newline: past the last newline of the
      whitespace run that follows it (a match of `\n\s*\n`, whose greedy `\s*`
      runs to that newline), or just past the head when the run has none. */
  function ResumeAfterNewline(s: String): (from: nat)
    requires s != [] && s[0] == '\n'
    ensures 1 <= from <= SpaceRunEnd(s, 1)
  {
    var k := LastIndexIn(s, 1, SpaceRunEnd(s, 1), '\n');
    if k >= 1 then k + 1 else 1
  }

  /** A match swallows whitespace only, up to the last newline of the run, and
      there is a match exactly when the run holds a newline. */
  lemma ResumeAfterNewlineSpec(s: String)
    requires s != [] && s[0] == '\n'
    ensures '\n' !in s[ResumeAfterNewline(s)..SpaceRunEnd(s, 1)]
    ensures ResumeAfterNewline(s) > 1 <==> BlankLineAt(s)
    ensures forall k :: 1 <= k < ResumeAfterNewline(s) ==> IsSpace(s[k])
  {
    var j := SpaceRunEnd(s, 1);
    SpaceRunEndSpaces(s, 1);
    var k := LastIndexIn(s, 1, j, '\n');
    assert k >= 1 ==> s[k] in s[1..j];
  }

  /** Each match of `\n\s*\n`, leftmost first, replaced by one newline. */
  function CollapseBlankLines(s: String): (r: String)
    decreases |s|
  {
    if s == [] then []
    else if s[0] == '\n' then
      var from := ResumeAfterNewline(s);
      [s[0]] + CollapseBlankLines(s[from..])
    else [s[0]] + CollapseBlankLines(s[1..])
  }

  /** How far one step of collapsing consumes: the head character, and for a
      head newline the whitespace a match swallows with it. */
  function ResumeFrom(s: String): (from: nat)
    requires s != []
    ensures 1 <= from <= |s|
  {
    if s[0] == '\n' then ResumeAfterNewline(s) else 1
  }

  lemma {:induction false} CollapseUnfold(s: String)
    requires s != []
    ensures CollapseBlankLines(s) == [s[0]] + CollapseBlankLines(s[ResumeFrom(s)..])
  {
  }

  /** Where no blank line starts at the head, collapsing copies the head. */
  lemma {:induction false} CollapseHead(s: String)
    requires s != [] && !BlankLineAt(s)
    ensures CollapseBlankLines(s) == [s[0]] + CollapseBlankLines(s[1..])
  {
    if s[0] == '\n' {
      ResumeAfterNewlineSpec(s);
    }
    CollapseUnfold(s);
  }

  lemma {:induction false} NoBlankLineSuffix(s: String, a: nat)
    requires a <= |s| && NoBlankLine(s)
    ensures NoBlankLine(s[a..])
  {
    forall i | 0 <= i < |s[a..]| ensures !BlankLineAt(s[a..][i..]) {
      assert s[a..][i..] == s[a + i..];
    }
  }

  /** Text without blank lines is left alone. */
  lemma {:induction false} CollapseWithoutBlankLines(s: String)
    requires NoBlankLine(s)
    ensures CollapseBlankLines(s) == s
    decreases |s|
  {
    if s != [] {
      assert s[0..] == s;
      CollapseHead(s);
      NoBlankLineSuffix(s, 1);
      CollapseWithoutBlankLines(s[1..]);
    }
  }

  lemma {:induction false} RemoveSpacesOfSpaces(s: String)
    requires forall k :: 0 <= k < |s| ==> IsSpace(s[k])
    ensures RemoveSpaces(s) == []
  {
    if s != [] { RemoveSpacesOfSpaces(s[1..]); }
  }

  /** Collapsing blank lines only ever deletes whitespace. */
  lemma {:induction false} CollapseKeepsContent(s: String)
    ensures RemoveSpaces(CollapseBlankLines(s)) == RemoveSpaces(s)
    decreases |s|
  {
    if s != [] {
      var from := ResumeFrom(s);
      CollapseUnfold(s);
      CollapseKeepsContent(s[from..]);
      RemoveSpacesAppend([s[0]], CollapseBlankLines(s[from..]));
      ResumeSkipsSpaces(s);
      RemoveSpacesSkip(s, from);
    }
  }

  /** What one step of collapsing swallows after the head is whitespace. */
  lemma ResumeSkipsSpaces(s: String)
    requires s != []
    ensures forall k :: 1 <= k < ResumeFrom(s) ==> IsSpace(s[k])
  {
    if s[0] == '\n' {
      ResumeAfterNewlineSpec(s);
    }
  }

  /** Dropping whitespace after the head does not change what `RemoveSpaces` keeps. */
  lemma RemoveSpacesSkip(s: String, from: nat)
    requires 1 <= from <= |s|
    requires forall k :: 1 <= k < from ==> IsSpace(s[k])
    ensures RemoveSpaces(s) == RemoveSpaces([s[0]]) + RemoveSpaces(s[from..])
  {
    var run := s[1..from];
    SliceOfSpaces(s, 1, from);
    HeadRunRest(s, from);
    RemoveSpacesAppend([s[0]] + run, s[from..]);
    RemoveSpacesAppend([s[0]], run);
    RemoveSpacesOfSpaces(run);
  }

  lemma SliceOfSpaces(s: String, lo: nat, hi: nat)
    requires lo <= hi <= |s|
    requires forall k :: lo <= k < hi ==> IsSpace(s[k])
    ensures forall k :: 0 <= k < hi - lo ==> IsSpace(s[lo..hi][k])
  {
    forall k | 0 <= k < hi - lo ensures IsSpace(s[lo..hi][k]) {
      assert s[lo..hi][k] == s[lo + k];
    }
  }

  lemma HeadRunRest(s: String, from: nat)
    requires 1 <= from <= |s|
    ensures s == [s[0]] + s[1..from] + s[from..]
  {
  }

  /** Collapsing passes a newline-free prefix through unchanged. */
  lemma {:induction false} CollapsePrefix(t: String, m: nat)
    requires m <= |t|
    requires '\n' !in t[..m]
    ensures CollapseBlankLines(t) == t[..m] + CollapseBlankLines(t[m..])
  {
    if m > 0 {
      assert t[0] in t[..m];
      assert t[1..][..m - 1] == t[1..m];
      assert '\n' !in t[1..][..m - 1];
      CollapsePrefix(t[1..], m - 1);
      assert t[1..][m - 1..] == t[m..];
      assert t[..m] == [t[0]] + t[1..m];
    }
  }

  lemma {:induction false} NoBlankLineCons(r: String)
    requires r != [] && !BlankLineAt(r) && NoBlankLine(r[1..])
    ensures NoBlankLine(r)
  {
    forall i | 0 <= i < |r| ensures !BlankLineAt(r[i..]) {
      if i == 0 {
        assert r[0..] == r;
      } else {
        assert r[i..] == r[1..][i - 1..];
      }
    }
  }

  lemma {:induction false} NoBlankAtHead(r: String, m: nat)
    requires 1 <= m <= |r| && r[0] == '\n'
    requires forall k :: 1 <= k < m ==> IsSpace(r[k]) && r[k] != '\n'
    requires m == |r| || !IsSpace(r[m])
    ensures !BlankLineAt(r)
  {
    SpaceRunEndIs(r, 1, m);
  }

  lemma {:induction false} CollapseAfterNewline(s: String)
    requires s != [] && s[0] == '\n'
    ensures CollapseBlankLines(s)
      == "\n" + s[ResumeFrom(s)..SpaceRunEnd(s, 1)] + CollapseBlankLines(s[SpaceRunEnd(s, 1)..])
  {
    var j := SpaceRunEnd(s, 1);
    var from := ResumeFrom(s);
    var run, c := s[from..j], CollapseBlankLines(s[j..]);
    assert s[from..][..j - from] == run;
    CollapsePrefix(s[from..], j - from);
    assert s[from..][j - from..] == s[j..];
    assert CollapseBlankLines(s[from..]) == run + c;
    CollapseUnfold(s);
    assert [s[0]] == "\n";
    assert "\n" + run + c == "\n" + (run + c);
  }

  /** After a head newline, collapsing leaves only a newline-free whitespace run
      before the next non-whitespace character. */
  lemma {:induction false} CollapseHeadNewline(s: String)
    requires s != [] && s[0] == '\n'
    ensures !BlankLineAt(CollapseBlankLines(s))
  {
    var j := SpaceRunEnd(s, 1);
    var run := s[ResumeFrom(s)..j];
    var ct := CollapseBlankLines(s[j..]);
    SpaceRunEndSpaces(s, 1);
    ResumeAfterNewlineSpec(s);
    CollapseAfterNewline(s);
    if j < |s| {
      CollapseUnfold(s[j..]);
      assert ct[0] == s[j];
    }
    NoBlankAtHead("\n" + run + ct, 1 + |run|);
  }

  /** The result of collapsing has no blank line left. */
  lemma {:induction false} CollapseLeavesNoBlankLine(s: String)
    ensures NoBlankLine(CollapseBlankLines(s))
    decreases |s|
  {
    var r := CollapseBlankLines(s);
    if s != [] {
      var from := ResumeFrom(s);
      CollapseUnfold(s);
      if s[0] == '\n' {
        CollapseHeadNewline(s);
      }
      CollapseLeavesNoBlankLine(s[from..]);
      assert r[1..] == CollapseBlankLines(s[from..]);
      NoBlankLineCons(r);
    }
  }
}
