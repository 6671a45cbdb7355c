/** String helpers with the meaning JavaScript gives them in the action:
    `trim`, `toLowerCase`, decimal rendering of a number and `Array.prototype.join`. */
module Text {

  /** The whitespace this model gives to `String.prototype.trim` and to `\s` in a pattern:
      space, tab, line feed, carriage return, vertical tab, form feed, no-break space
      and the byte-order mark. */
  predicate IsSpace(c: char) {
    c == ' ' || c == '\t' || c == '\n' || c == '\r' ||
    c == '\U{000B}' || c == '\U{000C}' || c == '\U{00A0}' || c == '\U{FEFF}'
  }

  predicate AllSpace(s: string) {
    forall k :: 0 <= k < |s| ==> IsSpace(s[k])
  }

  /** No whitespace at either end. */
  predicate IsTrimmed(s: string) {
    s == [] || (!IsSpace(s[0]) && !IsSpace(s[|s| - 1]))
  }

  /** Drops the longest all-whitespace prefix. */
  function TrimStart(s: string): (r: string)
    ensures |r| <= |s|
    decreases |s|
  {
    if |s| > 0 && IsSpace(s[0]) then TrimStart(s[1..]) else s
  }

  /** What `TrimStart` leaves is a suffix that does not start with whitespace, and what it drops
      is all whitespace. */
  lemma {:induction false} TrimStartShape(s: string)
    ensures var r := TrimStart(s);
            r == s[|s| - |r|..] && (r == [] || !IsSpace(r[0]))
            && AllSpace(s[..|s| - |r|])
    decreases |s|
  {
    if |s| > 0 && IsSpace(s[0]) {
      TrimStartShape(s[1..]);
      var r := TrimStart(s);
      var d := s[..|s| - |r|];
      assert d == [s[0]] + s[1..][..|s| - 1 - |r|];
      forall k | 0 <= k < |d| ensures IsSpace(d[k]) {
        if k > 0 { assert d[k] == s[1..][..|s| - 1 - |r|][k - 1]; }
      }
    }
  }

  /** Drops the longest all-whitespace suffix. */
  function TrimEnd(s: string): (r: string)
    ensures |r| <= |s|
    decreases |s|
  {
    if |s| > 0 && IsSpace(s[|s| - 1]) then TrimEnd(s[..|s| - 1]) else s
  }

  /** What `TrimEnd` leaves is a prefix that does not end with whitespace, and what it drops is
      all whitespace. */
  lemma {:induction false} TrimEndShape(s: string)
    ensures var r := TrimEnd(s);
            r == s[..|r|] && (r == [] || !IsSpace(r[|r| - 1]))
            && AllSpace(s[|r|..])
    decreases |s|
  {
    if |s| > 0 && IsSpace(s[|s| - 1]) {
      TrimEndShape(s[..|s| - 1]);
      var r := TrimEnd(s);
      var d := s[|r|..];
      assert d == s[..|s| - 1][|r|..] + [s[|s| - 1]];
      forall k | 0 <= k < |d| ensures IsSpace(d[k]) {
        if k < |d| - 1 { assert d[k] == s[..|s| - 1][|r|..][k]; }
      }
    }
  }

  /** `String.prototype.trim`. */
  function Trim(s: string): (r: string)
    ensures IsTrimmed(r)
    ensures |r| <= |s|
  {
    TrimStartShape(s);
    TrimEndShape(TrimStart(s));
    TrimEnd(TrimStart(s))
  }

  lemma TrimOfTrimmed(s: string)
    requires IsTrimmed(s)
    ensures Trim(s) == s
  {
  }

  lemma TrimIdempotent(s: string)
    ensures Trim(Trim(s)) == Trim(s)
  {
    TrimOfTrimmed(Trim(s));
  }

  lemma TrimmedConcat(a: string, b: string)
    requires IsTrimmed(a) && IsTrimmed(b)
    ensures IsTrimmed(a + b)
  {
  }

  lemma {:induction false} TrimStartSpaces(w: string, x: string)
    requires AllSpace(w)
    ensures TrimStart(w + x) == TrimStart(x)
    decreases |w|
  {
    if w != [] {
      var s := w + x;
      assert s[0] == w[0];
      assert s[1..] == w[1..] + x;
      assert AllSpace(w[1..]) by {
        forall k | 0 <= k < |w[1..]| ensures IsSpace(w[1..][k]) { assert w[1..][k] == w[k + 1]; }
      }
      TrimStartSpaces(w[1..], x);
      assert TrimStart(s) == TrimStart(s[1..]);
    } else {
      assert w + x == x;
    }
  }

  lemma {:induction false} TrimEndSpaces(x: string, w: string)
    requires AllSpace(w)
    ensures TrimEnd(x + w) == TrimEnd(x)
    decreases |w|
  {
    if w != [] {
      var w' := w[..|w| - 1];
      var s := x + w;
      assert s[|s| - 1] == w[|w| - 1];
      assert s[..|s| - 1] == x + w';
      assert AllSpace(w') by {
        forall k | 0 <= k < |w'| ensures IsSpace(w'[k]) { assert w'[k] == w[k]; }
      }
      TrimEndSpaces(x, w');
      assert TrimEnd(s) == TrimEnd(s[..|s| - 1]);
    } else {
      assert x + w == x;
    }
  }

  /** Whitespace after a string that is not all whitespace survives `TrimStart`. */
  lemma {:induction false} TrimStartAppend(s: string, w: string)
    ensures AllSpace(s) ==> TrimStart(s + w) == TrimStart(w)
    ensures !AllSpace(s) ==> TrimStart(s + w) == TrimStart(s) + w
    decreases |s|
  {
    if s == [] {
      assert s + w == w;
    } else if IsSpace(s[0]) {
      assert (s + w)[1..] == s[1..] + w;
      assert AllSpace(s) <==> AllSpace(s[1..]) by {
        if AllSpace(s[1..]) {
          forall k | 0 <= k < |s| ensures IsSpace(s[k]) {
            if k > 0 { assert s[k] == s[1..][k - 1]; }
          }
        }
      }
      TrimStartAppend(s[1..], w);
    }
  }

  /** Whitespace around a string does not change its trimmed form. */
  lemma TrimPadding(w1: string, s: string, w2: string)
    requires AllSpace(w1) && AllSpace(w2)
    ensures Trim(w1 + s + w2) == Trim(s)
  {
    assert w1 + s + w2 == w1 + (s + w2);
    TrimStartSpaces(w1, s + w2);
    TrimStartAppend(s, w2);
    if AllSpace(s) {
      TrimStartSpaces(w2, []);
      assert w2 + [] == w2;
      TrimStartSpaces(s, []);
      assert s + [] == s;
    } else {
      TrimEndSpaces(TrimStart(s), w2);
    }
  }

  /** ASCII-only case folding: the part of `toLowerCase` the model relies on. */
  function LowerChar(c: char): char {
    if 'A' <= c <= 'Z' then (c as int + 32) as char else c
  }

  function ToLower(s: string): (r: string)
    ensures |r| == |s|
    ensures forall k :: 0 <= k < |s| ==> r[k] == LowerChar(s[k])
  {
    seq(|s|, k requires 0 <= k < |s| => LowerChar(s[k]))
  }

  /** Case-insensitive equality with a lower-case ASCII keyword: what the `i` flag of a
      pattern gives its letters. Outside ASCII a non-ASCII character never folds to an ASCII one. */
  predicate FoldEq(text: string, key: string) {
    |text| == |key| && forall k :: 0 <= k < |key| ==> LowerChar(text[k]) == key[k]
  }

  predicate IsDigit(c: char) {
    '0' <= c <= '9'
  }

  predicate AllDigits(s: string) {
    forall k :: 0 <= k < |s| ==> IsDigit(s[k])
  }

  function DigitChar(d: nat): (c: char)
    requires d < 10
    ensures IsDigit(c)
  {
    ('0' as int + d) as char
  }

  function DigitValue(c: char): nat
    requires IsDigit(c)
  {
    c as int - '0' as int
  }

  /** The decimal text JavaScript gives a non-negative integer (`${n}`): digits only, no leading zero. */
  function NatToString(n: nat): (r: string)
    ensures r != [] && AllDigits(r)
    ensures r[0] == '0' ==> r == "0"
    decreases n
  {
    if n < 10 then [DigitChar(n)] else NatToString(n / 10) + [DigitChar(n % 10)]
  }

  lemma SmallNumbers()
    ensures NatToString(1) == "1" && NatToString(2) == "2"
  {
  }

  /** Reads a run of decimal digits back as a number. */
  function ParseNat(s: string): nat
    requires AllDigits(s)
  {
    if s == [] then 0 else ParseNat(s[..|s| - 1]) * 10 + DigitValue(s[|s| - 1])
  }

  lemma {:induction false} ParseNatToString(n: nat)
    ensures ParseNat(NatToString(n)) == n
    decreases n
  {
    if n >= 10 {
      var t := NatToString(n / 10);
      assert (t + [DigitChar(n % 10)])[..|t|] == t;
      ParseNatToString(n / 10);
    }
  }

  /** `Array.prototype.join(sep)`. */
  function Join(parts: seq<string>, sep: string): string {
    if |parts| == 0 then ""
    else if |parts| == 1 then parts[0]
    else parts[0] + sep + Join(parts[1..], sep)
  }
}
