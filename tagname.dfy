/** The pure parts of the `Tag` aggregate: its derived name and the two version
    classifiers behind the `prerelease` and `build` getters. */
module TagName {
  import opened Wrappers
  import Text

  /** The `name` getter: prefix, version and postfix, each trimmed, concatenated with no separator. */
  function Name(prefix: string, version: string, postfix: string): string {
    Text.Trim(prefix) + Text.Trim(version) + Text.Trim(postfix)
  }

  /** A name never starts or ends with whitespace, whatever the parts hold. */
  lemma NameIsTrimmed(prefix: string, version: string, postfix: string)
    ensures Text.IsTrimmed(Name(prefix, version, postfix))
  {
    var p, v, s := Text.Trim(prefix), Text.Trim(version), Text.Trim(postfix);
    Text.TrimmedConcat(p, v);
    Text.TrimmedConcat(p + v, s);
  }

  /** Parts that are already trimmed are joined as they are: no separator is added. */
  lemma NameOfTrimmedParts(prefix: string, version: string, postfix: string)
    requires Text.IsTrimmed(prefix) && Text.IsTrimmed(version) && Text.IsTrimmed(postfix)
    ensures Name(prefix, version, postfix) == prefix + version + postfix
  {
    Text.TrimOfTrimmed(prefix);
    Text.TrimOfTrimmed(version);
    Text.TrimOfTrimmed(postfix);
  }

  /** Each part is trimmed on its own: whitespace around any of them does not reach the name. */
  lemma NameIgnoresPadding(prefix: string, version: string, postfix: string,
                           w1: string, w2: string, w3: string, w4: string, w5: string, w6: string)
    requires Text.AllSpace(w1) && Text.AllSpace(w2) && Text.AllSpace(w3)
    requires Text.AllSpace(w4) && Text.AllSpace(w5) && Text.AllSpace(w6)
    ensures Name(w1 + prefix + w2, w3 + version + w4, w5 + postfix + w6) == Name(prefix, version, postfix)
  {
    Text.TrimPadding(w1, prefix, w2);
    Text.TrimPadding(w3, version, w4);
    Text.TrimPadding(w5, postfix, w6);
  }

  // The classifiers: `/([0-9\.]{5}(-[\w\.0-9]+)?)/i.test(version)` and the same pattern with `\+`.

  /** `[0-9\.]` */
  predicate IsDigitOrDot(c: char) {
    Text.IsDigit(c) || c == '.'
  }

  /** `[\w\.0-9]`: ASCII letters, digits, underscore and dot. */
  predicate IsQualifierChar(c: char) {
    ('a' <= c <= 'z') || ('A' <= c <= 'Z') || Text.IsDigit(c) || c == '_' || c == '.'
  }

  /** Five digits or dots start at position `i`: the `[0-9\.]{5}` core. */
  predicate CoreAt(v: string, i: nat) {
    i + 5 <= |v| && forall k :: i <= k < i + 5 ==> IsDigitOrDot(v[k])
  }

  /** The greedy `[\w\.0-9]+`-style run of qualifier characters starting at `j` (possibly empty). */
  function QualifierRun(v: string, j: nat): (n: nat)
    ensures j + n <= |v| || n == 0
    ensures forall k :: j <= k < j + n ==> IsQualifierChar(v[k])
    ensures j + n < |v| ==> !IsQualifierChar(v[j + n])
    decreases |v| - j
  {
    if j < |v| && IsQualifierChar(v[j]) then 1 + QualifierRun(v, j + 1) else 0
  }

  /** The end of the match of `[0-9\.]{5}(<intro>[\w\.0-9]+)?` that starts at `i`, if any.
      The qualifier group is optional, so it only lengthens a match and never decides one. */
  function ClassifierMatchAt(v: string, i: nat, intro: char): (r: Option<nat>)
    ensures r.Some? <==> CoreAt(v, i)
    ensures r.Some? ==> i + 5 <= r.value <= |v|
  {
    if CoreAt(v, i) then
      var j := i + 5;
      if j < |v| && v[j] == intro && QualifierRun(v, j + 1) > 0 then Some(j + 1 + QualifierRun(v, j + 1))
      else Some(j)
    else None
  }

  /** `RegExp.prototype.test` on an unanchored pattern: some position from `i` on starts a match. */
  function TestFrom(v: string, i: nat, intro: char): bool
    decreases |v| + 1 - i
  {
    if i > |v| then false
    else ClassifierMatchAt(v, i, intro).Some? || TestFrom(v, i + 1, intro)
  }

  /** The `prerelease` getter (main.js:50-52). */
  function Prerelease(version: string): bool {
    TestFrom(version, 0, '-')
  }

  /** The `build` getter (main.js:54-56). */
  function Build(version: string): bool {
    TestFrom(version, 0, '+')
  }

  /** The version holds five consecutive digits or dots somewhere. */
  ghost predicate HasNumericRun(v: string) {
    exists i: nat :: CoreAt(v, i)
  }

  lemma {:induction false} TestFromMeaning(v: string, i: nat, intro: char)
    ensures TestFrom(v, i, intro) <==> exists j: nat :: i <= j && CoreAt(v, j)
    decreases |v| + 1 - i
  {
    if i <= |v| {
      TestFromMeaning(v, i + 1, intro);
      if exists j: nat :: i <= j && CoreAt(v, j) {
        var j: nat :| i <= j && CoreAt(v, j);
        assert j == i || (i + 1 <= j && CoreAt(v, j));
      }
    }
  }

  /** Both classifiers say the same thing about every version: whether it holds five consecutive
      digits or dots. The qualifier that tells them apart is optional in both patterns. */
  lemma ClassifiersAgree(version: string)
    ensures Prerelease(version) == Build(version)
    ensures Prerelease(version) <==> HasNumericRun(version)
  {
    TestFromMeaning(version, 0, '-');
    TestFromMeaning(version, 0, '+');
  }

  lemma ClassifierExamples()
    ensures Prerelease("1.2.3") && Build("1.2.3")
    ensures !Prerelease("1.2") && !Build("1.2")
    ensures Prerelease("1.2.3-beta") && Build("1.2.3-beta")
    ensures Prerelease("1.2.3+001") && Build("1.2.3+001")
    ensures !Prerelease("v12-3") && !Build("v12-3")
  {
    assert CoreAt("1.2.3", 0);
    assert CoreAt("1.2.3-beta", 0);
    assert CoreAt("1.2.3+001", 0);
    ClassifiersAgree("1.2");
    ClassifiersAgree("v12-3");
    forall i: nat ensures !CoreAt("v12-3", i) {
      if i == 0 {
        assert !IsDigitOrDot("v12-3"[0]);
      }
    }
  }
}
