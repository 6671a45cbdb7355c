/** The `Dockerfile` version extractor of lib/docker.js: where it looks for the Dockerfile and
    the fixed pattern `/LABEL[\s\t]+version=[\t\s+]?["']?([0-9\.]+)["']?/i` it hands to its
    base class, written out as a matcher. The base class (lib/regex.js) is taken to select
    the version as the `Regex` extractor of main.js does. */
module Docker {
  import opened Wrappers
  import Text
  import Js
  import Regex

  /** `[0-9\.]`: the characters of a captured version. */
  predicate IsVersionChar(c: char) {
    Text.IsDigit(c) || c == '.'
  }

  predicate IsQuote(c: char) {
    c == '"' || c == '\''
  }

  /** `[\t\s+]`: what may stand between `version=` and the value. */
  predicate IsSeparator(c: char) {
    Text.IsSpace(c) || c == '+'
  }

  /** The optional separator and the optional quote, as they are written. */
  predicate OptSeparator(sep: string) {
    sep == [] || (|sep| == 1 && IsSeparator(sep[0]))
  }

  predicate OptQuote(quote: string) {
    quote == [] || (|quote| == 1 && IsQuote(quote[0]))
  }

  /** Everything the pattern takes before the group: `label` in any case, a non-empty run of
      whitespace, `version=` in any case, an optional separator and an optional quote. */
  predicate LabelPrefix(word: string, w: string, key: string, sep: string, quote: string) {
    Text.FoldEq(word, "label") && w != [] && Text.AllSpace(w) && Text.FoldEq(key, "version=")
    && OptSeparator(sep) && OptQuote(quote)
  }

  /** The longest run of whitespace starting at `j`. */
  function SpaceRun(c: string, j: nat): (n: nat)
    ensures j + n <= |c| || n == 0
    ensures forall k :: j <= k < j + n ==> Text.IsSpace(c[k])
    ensures j + n < |c| ==> !Text.IsSpace(c[j + n])
    decreases |c| - j
  {
    if j < |c| && Text.IsSpace(c[j]) then 1 + SpaceRun(c, j + 1) else 0
  }

  /** The longest run of digits and dots starting at `j`. */
  function VersionRun(c: string, j: nat): (n: nat)
    ensures j + n <= |c| || n == 0
    ensures forall k :: j <= k < j + n ==> IsVersionChar(c[k])
    ensures j + n < |c| ==> !IsVersionChar(c[j + n])
    decreases |c| - j
  {
    if j < |c| && IsVersionChar(c[j]) then 1 + VersionRun(c, j + 1) else 0
  }

  /** The span of group 1 when the pattern matches at position `p`, if it does.

      Every choice the backtracking engine could make is forced: `version=` starts with a
      letter, so `[\s\t]+` must take the whole run of whitespace; the optional separator and
      the optional quote are neither digits nor dots, so skipping one that is there cannot
      lead to a match; and the closing quote is optional, so the greedy `[0-9\.]+` keeps the
      longest run. */
  function LabelAt(c: string, p: nat): (r: Option<(nat, nat)>)
    ensures r.Some? ==> p + 13 < r.value.1 <= |c| && p <= r.value.0 < r.value.1
  {
    match HeaderEnd(c, p)
    case None => None
    case Some(b) => ValueSpan(c, b)
  }

  /** The group of a match is a run of digits and dots that cannot be extended. */
  lemma LabelGroup(c: string, p: nat)
    requires LabelAt(c, p).Some?
    ensures var (a, b) := LabelAt(c, p).value;
            (forall k :: a <= k < b ==> IsVersionChar(c[k])) && (b == |c| || !IsVersionChar(c[b]))
  {
    var h := HeaderEnd(c, p).value;
    var b1 := if h < |c| && IsSeparator(c[h]) then h + 1 else h;
    var b2 := if b1 < |c| && IsQuote(c[b1]) then b1 + 1 else b1;
    ValueSpanAt(c, h, b1, b2);
  }

  /** `LABEL[\s\t]+version=` at `p`: where the part after `=` starts. */
  function HeaderEnd(c: string, p: nat): (r: Option<nat>)
    ensures r.Some? ==> p + 14 <= r.value <= |c|
  {
    if p + 5 > |c| || !Text.FoldEq(c[p..p + 5], "label") then None
    else
      var w := SpaceRun(c, p + 5);
      var a := p + 5 + w;
      if w == 0 || a + 8 > |c| || !Text.FoldEq(c[a..a + 8], "version=") then None
      else Some(a + 8)
  }

  /** `[\t\s+]?["']?([0-9\.]+)` at `b`: the span of the group. */
  function ValueSpan(c: string, b: nat): (r: Option<(nat, nat)>)
    ensures r.Some? ==> b <= r.value.0 < r.value.1 <= |c|
  {
    var b1 := if b < |c| && IsSeparator(c[b]) then b + 1 else b;
    var b2 := if b1 < |c| && IsQuote(c[b1]) then b1 + 1 else b1;
    var n := VersionRun(c, b2);
    if n == 0 then None else Some((b2, b2 + n))
  }

  /** The leftmost position from `p` on where the pattern matches: where `exec` finds its match
      on a pattern without the global flag. */
  function FirstLabel(c: string, p: nat): (r: Option<nat>)
    ensures r.Some? ==> p <= r.value && LabelAt(c, r.value).Some?
    ensures r.Some? ==> forall q :: p <= q < r.value ==> LabelAt(c, q).None?
    decreases |c| + 1 - p
  {
    if p + 5 > |c| then None
    else if LabelAt(c, p).Some? then Some(p)
    else FirstLabel(c, p + 1)
  }

  /** No match from `p` on means no position from `p` on starts one. */
  lemma {:induction false} FirstLabelNone(c: string, p: nat)
    requires FirstLabel(c, p).None?
    ensures forall q :: p <= q ==> LabelAt(c, q).None?
    decreases |c| + 1 - p
  {
    if p + 5 <= |c| {
      assert LabelAt(c, p).None?;
      FirstLabelNone(c, p + 1);
    } else {
      forall q | p <= q ensures LabelAt(c, q).None? {
        assert HeaderEnd(c, q).None?;
      }
    }
  }

  /** `exec` of the label pattern: the pattern has one group and no named ones. */
  function LabelMatch(c: string): (m: Regex.MatchResult)
    ensures m.Match? ==> m.named.None? && m.group1.Captured?
  {
    match FirstLabel(c, 0)
    case None => Regex.NoMatch
    case Some(q) =>
      var (a, b) := LabelAt(c, q).value;
      Regex.Match(Regex.Captured(c[a..b]), None)
  }

  /** A version read from a Dockerfile is the group of the leftmost label line: a non-empty run of
      digits and dots that ends where the next character is neither. It is found iff some
      position starts a label line. */
  lemma LabelVersionShape(c: string)
    ensures Regex.VersionFound(Regex.SelectVersion(LabelMatch(c))) <==> exists q :: LabelAt(c, q).Some?
    ensures FirstLabel(c, 0).Some? ==>
              var (a, b) := LabelAt(c, FirstLabel(c, 0).value).value;
              var v := Regex.SelectVersion(LabelMatch(c));
              v == Js.Str(c[a..b]) && v.s != [] && (forall k :: 0 <= k < |v.s| ==> IsVersionChar(v.s[k]))
              && (b == |c| || !IsVersionChar(c[b]))
  {
    var r := FirstLabel(c, 0);
    if r.None? {
      FirstLabelNone(c, 0);
    } else {
      var (a, b) := LabelAt(c, r.value).value;
      LabelGroup(c, r.value);
      var v := c[a..b];
      assert forall k :: 0 <= k < |v| ==> v[k] == c[a + k];
    }
  }

  lemma {:induction false} SpaceRunOf(w: string, t: string)
    requires Text.AllSpace(w) && (t == [] || !Text.IsSpace(t[0]))
    ensures SpaceRun(w + t, 0) == |w|
    decreases |w|
  {
    if w == [] {
      assert w + t == t;
    } else {
      SpaceRunOf(w[1..], t);
      SpaceRunShift(w + t, 1);
      assert (w + t)[1..] == w[1..] + t;
    }
  }

  /** Runs measured from `j` in `c` are the runs measured from 0 in `c[j..]`. */
  lemma {:induction false} SpaceRunShift(c: string, j: nat)
    requires j <= |c|
    ensures SpaceRun(c, j) == SpaceRun(c[j..], 0)
    decreases |c| - j
  {
    if j < |c| {
      SpaceRunShift(c, j + 1);
      SpaceRunShift(c[j..], 1);
      assert c[j..][1..] == c[j + 1..];
    }
  }

  lemma {:induction false} VersionRunShift(c: string, j: nat)
    requires j <= |c|
    ensures VersionRun(c, j) == VersionRun(c[j..], 0)
    decreases |c| - j
  {
    if j < |c| {
      VersionRunShift(c, j + 1);
      VersionRunShift(c[j..], 1);
      assert c[j..][1..] == c[j + 1..];
    }
  }

  lemma {:induction false} VersionRunOf(v: string, t: string)
    requires (forall k :: 0 <= k < |v| ==> IsVersionChar(v[k])) && (t == [] || !IsVersionChar(t[0]))
    ensures VersionRun(v + t, 0) == |v|
    decreases |v|
  {
    if v == [] {
      assert v + t == t;
    } else {
      VersionRunOf(v[1..], t);
      VersionRunShift(v + t, 1);
      assert (v + t)[1..] == v[1..] + t;
    }
  }

  /** A label line is recognised wherever it starts, whatever comes before it: `label` in any
      case, a non-empty run of whitespace, `version=` in any case, an optional separator, an
      optional quote and a run of digits and dots that is captured whole. */
  lemma LabelAccepts(pre: string, word: string, w: string, key: string, sep: string, quote: string,
                     v: string, t: string)
    requires LabelPrefix(word, w, key, sep, quote)
    requires v != [] && forall k :: 0 <= k < |v| ==> IsVersionChar(v[k])
    requires t == [] || !IsVersionChar(t[0])
    ensures var c := pre + (word + w + key + sep + quote + v + t);
            var r := LabelAt(c, |pre|);
            r.Some? && r.value.0 == |pre| + |word| + |w| + |key| + |sep| + |quote|
            && r.value.1 == r.value.0 + |v| && c[r.value.0..r.value.1] == v
  {
    var line := word + w + key + sep + quote + v + t;
    LineAccepts(word, w, key, sep, quote, v, t);
    ShiftedMatch(pre, line, |word| + |w| + |key| + |sep| + |quote|, v);
  }

  /** A match at the start of `line`, moved behind `pre`. */
  lemma ShiftedMatch(pre: string, line: string, a: nat, v: string)
    requires var r := LabelAt(line, 0);
             r.Some? && r.value.0 == a && r.value.1 == a + |v| && line[a..a + |v|] == v
    ensures var r := LabelAt(pre + line, |pre|);
            r.Some? && r.value.0 == |pre| + a && r.value.1 == r.value.0 + |v|
            && (pre + line)[r.value.0..r.value.1] == v
  {
    LabelAtOffset(pre, line);
    SliceShift(pre, line, a, a + |v|);
  }

  /** The same for a line at the very start of the content. */
  lemma LineAccepts(word: string, w: string, key: string, sep: string, quote: string, v: string, t: string)
    requires LabelPrefix(word, w, key, sep, quote)
    requires v != [] && forall k :: 0 <= k < |v| ==> IsVersionChar(v[k])
    requires t == [] || !IsVersionChar(t[0])
    ensures var c := word + w + key + sep + quote + v + t;
            var r := LabelAt(c, 0);
            r.Some? && r.value.0 == |word| + |w| + |key| + |sep| + |quote|
            && r.value.1 == r.value.0 + |v| && c[r.value.0..r.value.1] == v
  {
    LabelHeaderPart(word, w, key, sep, quote, v, t);
    ValueAccepts(word + w + key, sep, quote, v, t);
  }

  /** Whether the pattern matches at a position depends only on the text from there on: text put
      in front moves a match by its length and changes nothing else. */
  lemma LabelAtOffset(pre: string, c: string)
    ensures LabelAt(pre + c, |pre|)
              == match LabelAt(c, 0)
                 case None => None
                 case Some((a, b)) => Some((|pre| + a, |pre| + b))
  {
    HeaderShift(pre, c);
    match HeaderEnd(c, 0)
    case None =>
    case Some(h) => ValueShift(pre, c, h);
  }

  lemma HeaderShift(pre: string, c: string)
    ensures HeaderEnd(pre + c, |pre|)
              == match HeaderEnd(c, 0)
                 case None => None
                 case Some(h) => Some(|pre| + h)
  {
    if 5 <= |c| {
      SliceShift(pre, c, 0, 5);
      SpaceRunPrefix(pre, c, 5);
      var a := 5 + SpaceRun(c, 5);
      if a + 8 <= |c| {
        SliceShift(pre, c, a, a + 8);
      }
    }
  }

  lemma ValueShift(pre: string, c: string, b: nat)
    requires b <= |c|
    ensures ValueSpan(pre + c, |pre| + b)
              == match ValueSpan(c, b)
                 case None => None
                 case Some((x, y)) => Some((|pre| + x, |pre| + y))
  {
    assert (pre + c)[|pre| + b..] == c[b..];
    ValueSpanSuffix(pre + c, c, |pre| + b, b);
  }

  /** `ValueSpan` at `m` in `u` and at `b` in `c` agree, moved by `m - b`, when the texts from
      there on are the same. */
  lemma ValueSpanSuffix(u: string, c: string, m: nat, b: nat)
    requires b <= m <= |u| && b <= |c| && u[m..] == c[b..]
    ensures ValueSpan(u, m).Some? <==> ValueSpan(c, b).Some?
    ensures ValueSpan(c, b).Some? ==>
              ValueSpan(u, m).value.0 == m - b + ValueSpan(c, b).value.0
              && ValueSpan(u, m).value.1 == m - b + ValueSpan(c, b).value.1
  {
    var m1, b1 := m, b;
    if b < |c| {
      SuffixStep(u, c, m, b);
      if IsSeparator(c[b]) {
        m1, b1 := m + 1, b + 1;
      }
    }
    var m2, b2 := m1, b1;
    if b1 < |c| {
      SuffixStep(u, c, m1, b1);
      if IsQuote(c[b1]) {
        m2, b2 := m1 + 1, b1 + 1;
      }
    }
    assert u[m2..] == c[b2..];
    VersionRunShift(u, m2);
    VersionRunShift(c, b2);
    var n := VersionRun(c, b2);
    assert VersionRun(u, m2) == n;
    ValueSpanAt(c, b, b1, b2);
    ValueSpanAt(u, m, m1, m2);
  }

  lemma SuffixStep(u: string, c: string, m: nat, b: nat)
    requires m <= |u| && b < |c| && u[m..] == c[b..]
    ensures m < |u| && u[m] == c[b] && u[m + 1..] == c[b + 1..]
  {
    assert u[m..][0] == c[b..][0];
    assert u[m..][1..] == u[m + 1..];
    assert c[b..][1..] == c[b + 1..];
  }

  lemma SliceShift(pre: string, c: string, i: nat, j: nat)
    requires i <= j <= |c|
    ensures (pre + c)[|pre| + i..|pre| + j] == c[i..j]
  {
  }

  lemma SpaceRunPrefix(pre: string, c: string, j: nat)
    requires j <= |c|
    ensures SpaceRun(pre + c, |pre| + j) == SpaceRun(c, j)
  {
    SpaceRunShift(pre + c, |pre| + j);
    SpaceRunShift(c, j);
    assert (pre + c)[|pre| + j..] == c[j..];
  }

  lemma VersionRunPrefix(pre: string, c: string, j: nat)
    requires j <= |c|
    ensures VersionRun(pre + c, |pre| + j) == VersionRun(c, j)
  {
    VersionRunShift(pre + c, |pre| + j);
    VersionRunShift(c, j);
    assert (pre + c)[|pre| + j..] == c[j..];
  }

  /** The leftmost match is at `p` when one starts there and none starts before. */
  lemma {:induction false} FirstLabelFrom(c: string, i: nat, p: nat)
    requires i <= p && LabelAt(c, p).Some?
    requires forall q :: i <= q < p ==> LabelAt(c, q).None?
    ensures FirstLabel(c, i) == Some(p)
    decreases p - i
  {
    if i < p {
      FirstLabelFrom(c, i + 1, p);
    }
  }

  /** No match starts at a character other than `l` or `L`. */
  lemma NoLabelAt(c: string, q: nat)
    requires q < |c| && Text.LowerChar(c[q]) != 'l'
    ensures LabelAt(c, q).None?
  {
    if q + 5 <= |c| {
      assert c[q..q + 5][0] == c[q];
    }
  }

  /** Conversely, every match is of that form: what comes before the group is such a prefix,
      and the group is a longest run of digits and dots. */
  lemma LabelAtShape(c: string, p: nat)
    requires LabelAt(c, p).Some?
    ensures p <= LabelAt(c, p).value.0
    ensures exists word, w, key, sep, quote :: LabelPrefix(word, w, key, sep, quote)
              && c[p..LabelAt(c, p).value.0] == word + w + key + sep + quote
    ensures var (a, b) := LabelAt(c, p).value;
            (forall k :: a <= k < b ==> IsVersionChar(c[k])) && (b == |c| || !IsVersionChar(c[b]))
  {
    LabelGroup(c, p);
    var h := HeaderEnd(c, p).value;
    var a := p + 5 + SpaceRun(c, p + 5);
    assert h == a + 8 && p + 5 < a && Text.FoldEq(c[p..p + 5], "label") && Text.FoldEq(c[a..h], "version=");
    var b1 := if h < |c| && IsSeparator(c[h]) then h + 1 else h;
    var b2 := if b1 < |c| && IsQuote(c[b1]) then b1 + 1 else b1;
    assert LabelAt(c, p).value.0 == b2;
    LabelSlices(c, p, a, h, b1, b2);
  }

  /** Cut at the ends of its parts, the text before a group is a label prefix. */
  lemma LabelSlices(c: string, p: nat, a: nat, h: nat, b1: nat, b2: nat)
    requires p + 5 < a && h == a + 8 && h <= b1 <= h + 1 && b1 <= b2 <= b1 + 1 && b2 <= |c|
    requires Text.FoldEq(c[p..p + 5], "label") && Text.FoldEq(c[a..h], "version=")
    requires forall k :: p + 5 <= k < a ==> Text.IsSpace(c[k])
    requires b1 == h + 1 ==> IsSeparator(c[h])
    requires b2 == b1 + 1 ==> IsQuote(c[b1])
    ensures exists word, w, key, sep, quote :: LabelPrefix(word, w, key, sep, quote)
              && c[p..b2] == word + w + key + sep + quote
  {
    var word, w, key, sep, quote := c[p..p + 5], c[p + 5..a], c[a..h], c[h..b1], c[b1..b2];
    assert Text.AllSpace(w) by {
      forall k | 0 <= k < |w| ensures Text.IsSpace(w[k]) {
        assert w[k] == c[p + 5 + k];
      }
    }
    assert b1 == h + 1 ==> sep == [c[h]];
    assert b2 == b1 + 1 ==> quote == [c[b1]];
    assert LabelPrefix(word, w, key, sep, quote);
    assert c[p..b2] == word + w + key + sep + quote;
  }

  lemma LabelHeaderPart(word: string, w: string, key: string, sep: string, quote: string, v: string, t: string)
    requires Text.FoldEq(word, "label") && Text.FoldEq(key, "version=")
    requires w != [] && Text.AllSpace(w)
    ensures HeaderEnd(word + w + key + sep + quote + v + t, 0) == Some(|word + w + key|)
  {
    var rest := sep + quote + v + t;
    assert word + w + key + sep + quote + v + t == word + w + key + rest;
    HeaderAccepts(word, w, key, rest);
  }

  lemma HeaderAccepts(word: string, w: string, key: string, rest: string)
    requires Text.FoldEq(word, "label") && Text.FoldEq(key, "version=")
    requires w != [] && Text.AllSpace(w)
    ensures HeaderEnd(word + w + key + rest, 0) == Some(|word| + |w| + |key|)
  {
    var c := word + w + key + rest;
    assert c[0..5] == word;
    assert c[5..] == w + (key + rest);
    assert !Text.IsSpace(key[0]) by {
      assert Text.LowerChar(key[0]) == 'v';
    }
    assert (key + rest)[0] == key[0];
    SpaceRunOf(w, key + rest);
    SpaceRunShift(c, 5);
    assert c[5 + |w|..5 + |w| + 8] == key;
  }

  lemma ValueAccepts(head: string, sep: string, quote: string, v: string, t: string)
    requires OptSeparator(sep) && OptQuote(quote)
    requires v != [] && forall k :: 0 <= k < |v| ==> IsVersionChar(v[k])
    requires t == [] || !IsVersionChar(t[0])
    ensures var c := head + sep + quote + v + t;
            var a := |head| + |sep| + |quote|;
            ValueSpan(c, |head|) == Some((a, a + |v|)) && c[a..a + |v|] == v
  {
    ValueRunOfTail(head + sep, quote, v, t);
    ValueSpanOf(head, sep, quote, v, t, |v|);
  }

  /** After the separator and quote that are there, a version character starts the group. */
  lemma ValueSpanOf(head: string, sep: string, quote: string, v: string, t: string, n: nat)
    requires OptSeparator(sep) && OptQuote(quote)
    requires v != [] && IsVersionChar(v[0])
    requires VersionRun(head + sep + quote + v + t, |head| + |sep| + |quote|) == n > 0
    ensures var c := head + sep + quote + v + t;
            var a := |head| + |sep| + |quote|;
            ValueSpan(c, |head|) == Some((a, a + n))
  {
    var c := head + sep + quote + v + t;
    var b := |head|;
    var b1 := b + |sep|;
    CharClasses(v[0]);
    if quote != [] {
      CharClasses(quote[0]);
    }
    assert c[b1] == if quote == [] then v[0] else quote[0];
    assert c[b] == if sep == [] then c[b1] else sep[0];
    ValueSpanAt(c, b, b1, b1 + |quote|);
  }

  /** The group starts after the separator and the quote that are there. */
  lemma ValueSpanAt(c: string, b: nat, b1: nat, a: nat)
    requires (if b < |c| && IsSeparator(c[b]) then b + 1 else b) == b1
    requires (if b1 < |c| && IsQuote(c[b1]) then b1 + 1 else b1) == a
    ensures ValueSpan(c, b) == if VersionRun(c, a) == 0 then None else Some((a, a + VersionRun(c, a)))
  {
  }

  /** Version characters, quotes and separators are three disjoint classes. */
  lemma CharClasses(x: char)
    ensures IsVersionChar(x) ==> !IsQuote(x) && !IsSeparator(x)
    ensures IsQuote(x) ==> !IsSeparator(x)
  {
  }

  lemma ValueRunOfTail(head: string, quote: string, v: string, t: string)
    requires v != [] && forall k :: 0 <= k < |v| ==> IsVersionChar(v[k])
    requires t == [] || !IsVersionChar(t[0])
    ensures var c := head + quote + v + t;
            var a := |head| + |quote|;
            VersionRun(c, a) == |v| && c[a..a + |v|] == v
  {
    var c := head + quote + v + t;
    var a := |head| + |quote|;
    assert c[a..] == v + t;
    VersionRunOf(v, t);
    VersionRunShift(c, a);
  }

  /** Without a version character after `version=`, past the separator and quote that are
      actually there, there is no match. */
  lemma LabelRejectsValue(word: string, w: string, key: string, t: string)
    requires Text.FoldEq(word, "label") && Text.FoldEq(key, "version=")
    requires w != [] && Text.AllSpace(w)
    requires t == [] || (!IsVersionChar(t[0]) && !IsQuote(t[0]) && !IsSeparator(t[0]))
    ensures LabelAt(word + w + key + t, 0).None?
  {
    var c := word + w + key + t;
    HeaderAccepts(word, w, key, t);
    var h := |word| + |w| + |key|;
    assert t != [] ==> c[h] == t[0];
    assert VersionRun(c, h) == 0;
  }

  /** At most one separator is allowed: two in a row are refused, whatever follows. */
  lemma LabelRejectsTwoSeparators(word: string, w: string, key: string, s1: char, s2: char, t: string)
    requires Text.FoldEq(word, "label") && Text.FoldEq(key, "version=")
    requires w != [] && Text.AllSpace(w)
    requires IsSeparator(s1) && IsSeparator(s2)
    ensures LabelAt(word + w + key + [s1, s2] + t, 0).None?
  {
    var c := word + w + key + [s1, s2] + t;
    HeaderAccepts(word, w, key, [s1, s2] + t);
    assert c == word + w + key + ([s1, s2] + t);
    var h := |word| + |w| + |key|;
    assert c[h] == s1 && c[h + 1] == s2;
    assert VersionRun(c, h + 1) == 0;
  }

  /** The missing whitespace and the missing value are refused. */
  lemma LabelRejects(v: string)
    ensures LabelAt("LABELversion=" + v, 0).None?
    ensures LabelAt("LABEL version=x", 0).None?
  {
    assert !Text.IsSpace(("LABELversion=" + v)[5]);
    var c := "LABEL version=x";
    assert Text.FoldEq(c[6..14], "version=");
    assert VersionRun(c, 14) == 0;
  }

  /** Two spaces, or two plus signs, after `version=` are refused. */
  lemma LabelRejectsDoubledSpace()
    ensures LabelAt("LABEL version=  1.0", 0).None?
  {
    LabelRejectsTwoSeparators("LABEL", " ", "version=", ' ', ' ', "1.0");
    assert "LABEL" + " " + "version=" + [' ', ' '] + "1.0" == "LABEL version=  1.0";
  }

  lemma LabelRejectsDoubledPlus()
    ensures LabelAt("LABEL version=++1", 0).None?
  {
    LabelRejectsTwoSeparators("LABEL", " ", "version=", '+', '+', "1");
    assert "LABEL" + " " + "version=" + ['+', '+'] + "1" == "LABEL version=++1";
  }

  /** A label line after text in which no match starts gives its version. */
  lemma LabelLineVersion(pre: string, word: string, w: string, key: string, sep: string, quote: string,
                         v: string, t: string)
    requires LabelPrefix(word, w, key, sep, quote)
    requires v != [] && forall k :: 0 <= k < |v| ==> IsVersionChar(v[k])
    requires t == [] || !IsVersionChar(t[0])
    requires forall q :: 0 <= q < |pre| ==> LabelAt(pre + (word + w + key + sep + quote + v + t), q).None?
    ensures Regex.SelectVersion(LabelMatch(pre + (word + w + key + sep + quote + v + t))) == Js.Str(v)
  {
    var c := pre + (word + w + key + sep + quote + v + t);
    LabelAccepts(pre, word, w, key, sep, quote, v, t);
    FirstLabelFrom(c, 0, |pre|);
  }

  lemma QuotedLabelParts()
    ensures Text.FoldEq("LABEL", "label") && Text.FoldEq("version=", "version=") && Text.AllSpace(" ")
    ensures (forall k :: 0 <= k < |"1.4.0"| ==> IsVersionChar("1.4.0"[k])) && !IsVersionChar("\""[0]) && IsQuote("\""[0])
    ensures "LABEL" + " " + "version=" + "" + "\"" + "1.4.0" + "\"" == "LABEL version=\"1.4.0\""
  {
  }

  lemma LowerCaseLabelParts()
    ensures Text.FoldEq("label", "label") && Text.FoldEq("VERSION=", "version=") && Text.AllSpace(" ")
    ensures forall k :: 0 <= k < |"2.0"| ==> IsVersionChar("2.0"[k])
    ensures "label" + " " + "VERSION=" + "" + "" + "2.0" + "" == "label VERSION=2.0"
  {
  }

  /** The label line `LABEL version="1.4.0"` gives its version without the quotes. */
  lemma QuotedLabelExample()
    ensures Regex.SelectVersion(LabelMatch("LABEL version=\"1.4.0\"")) == Js.Str("1.4.0")
  {
    QuotedLabelParts();
    assert "" + "LABEL version=\"1.4.0\"" == "LABEL version=\"1.4.0\"";
    LabelLineVersion("", "LABEL", " ", "version=", "", "\"", "1.4.0", "\"");
  }

  /** The keywords may be written in any case. */
  lemma LowerCaseLabelExample()
    ensures Regex.SelectVersion(LabelMatch("label VERSION=2.0")) == Js.Str("2.0")
  {
    LowerCaseLabelParts();
    assert "" + "label VERSION=2.0" == "label VERSION=2.0";
    LabelLineVersion("", "label", " ", "VERSION=", "", "", "2.0", "");
  }

  /** In a Dockerfile that starts with a `FROM` line, the label on the next line gives the version. */
  lemma DockerfileExample()
    ensures Regex.SelectVersion(LabelMatch("FROM node:12\nLABEL version=\"1.4.0\"\n")) == Js.Str("1.4.0")
  {
    var pre := "FROM node:12\n";
    var line := "LABEL version=\"1.4.0\"\n";
    var c := pre + line;
    assert c == "FROM node:12\nLABEL version=\"1.4.0\"\n";
    QuotedLabelParts();
    assert "LABEL" + " " + "version=" + "" + "\"" + "1.4.0" + "\"\n" == line;
    forall q | 0 <= q < |pre| ensures LabelAt(c, q).None? {
      assert c[q] == pre[q];
      NoLabelAt(c, q);
    }
    LabelLineVersion(pre, "LABEL", " ", "version=", "", "\"", "1.4.0", "\"\n");
  }

  /** `path.join(base, part)`; the joined path is not normalised. */
  function JoinPath(base: string, part: string): string {
    base + "/" + part
  }

  /** The path rule of lib/docker.js:6-11: the root is taken relative to the workspace, and a
      directory stands for the `Dockerfile` inside it. A missing root argument (the default
      `null`) makes `path.join` throw, and so does a path that does not exist
      (`statSync`). */
  function DockerfilePath(workspace: string, root: Option<string>, stat: string -> Regex.Node): (r: Result<string>)
    ensures root.None? ==> r.Failure?
    ensures root.Some? ==>
              var p := JoinPath(workspace, root.value);
              (r.Success? <==> !stat(p).Absent?)
              && (stat(p).Directory? ==> r == Success(JoinPath(p, "Dockerfile")))
              && (stat(p).File? ==> r == Success(p))
  {
    match root
    case None => Failure("The \"path\" argument must be of type string. Received null")
    case Some(part) =>
      var p := JoinPath(workspace, part);
      match stat(p)
      case Absent => Failure("ENOENT: no such file or directory, stat '" + p + "'")
      case Directory => Success(JoinPath(p, "Dockerfile"))
      case File(_) => Success(p)
  }

  /** The version a `Dockerfile` extractor reports. */
  function DockerVersion(workspace: string, root: Option<string>, stat: string -> Regex.Node): Result<Js.Value> {
    var path :- DockerfilePath(workspace, root, stat);
    Regex.RegexVersion(path, stat(path), LabelMatch)
  }

  /** A directory root is read through the `Dockerfile` inside it, and its label gives the version;
      a directory named `Dockerfile` inside it is refused. */
  lemma DockerDirectory(workspace: string, root: string, stat: string -> Regex.Node)
    requires stat(JoinPath(workspace, root)).Directory?
    ensures var f := JoinPath(JoinPath(workspace, root), "Dockerfile");
            DockerVersion(workspace, Some(root), stat)
              == (if stat(f).File? then Success(Regex.SelectVersion(LabelMatch(stat(f).content)))
                  else Regex.RegexVersion(f, stat(f), LabelMatch))
            && (stat(f).File? <==> DockerVersion(workspace, Some(root), stat).Success?)
  {
  }
}
