/** The `Regex` version extractor of main.js:231-263: the file it reads and how it picks the
    version out of the first match of a pattern. The pattern engine itself is given: only
    what `exec` reports about its first match is modelled. */
module Regex {
  import opened Wrappers
  import Js

  /** What the file system holds at a resolved path. */
  datatype Node = Absent | Directory | File(content: string)

  /** One capture group of a match: it took part in the match with some text, or it did not. */
  datatype Group = Unmatched | Captured(text: string)

  /** The result of `pattern.exec(content)`: `null`, or a match with its group 1 (`Unmatched` also
      stands for a pattern without a first group) and its named groups, which are absent
      when the pattern names none. */
  datatype MatchResult = NoMatch | Match(group1: Group, named: Option<map<string, Group>>)

  /** A group read as a JavaScript value: unmatched groups read as `undefined`. */
  function GroupValue(g: Group): Js.Value {
    if g.Captured? then Js.Str(g.text) else Js.Undefined
  }

  /** The named group `version` holds a non-empty text: the test `content.groups && content.groups.version`. */
  predicate NamedVersion(m: MatchResult) {
    m.Match? && m.named.Some? && "version" in m.named.value
    && m.named.value["version"].Captured? && m.named.value["version"].text != ""
  }

  /** The capture selection of main.js:245-253. */
  function SelectVersion(m: MatchResult): (v: Js.Value)
    ensures v.Null? <==> m.NoMatch?
    ensures NamedVersion(m) ==> v == Js.Str(m.named.value["version"].text) && Js.Truthy(v)
    ensures m.Match? && !NamedVersion(m) ==> v == GroupValue(m.group1)
  {
    match m
    case NoMatch => Js.Null
    case Match(g1, named) =>
      if NamedVersion(m) then Js.Str(named.value["version"].text) else GroupValue(g1)
  }

  /** The `versionFound` getter (main.js:260-262). */
  function VersionFound(v: Js.Value): bool {
    !v.Null?
  }

  /** A version is found exactly when the pattern matched, even when the selected group is
      empty or did not take part in the match. */
  lemma VersionFoundIffMatched(m: MatchResult)
    ensures VersionFound(SelectVersion(m)) <==> m.Match?
    ensures m == Match(Unmatched, None) ==> VersionFound(SelectVersion(m)) && !Js.Truthy(SelectVersion(m))
  {
  }

  /** A named `version` group that is empty or unmatched does not hide group 1. */
  lemma EmptyNamedFallsBack(g1: Group, g: Group, others: map<string, Group>)
    requires g == Unmatched || g == Captured("")
    ensures SelectVersion(Match(g1, Some(others["version" := g]))) == GroupValue(g1)
  {
  }

  /** The `Regex` constructor (main.js:232-254): the path must hold a file, whose content is
      matched. A directory is refused with the message of main.js:236; a missing path makes
      the `statSync` call throw before the existence test is reached. */
  function RegexVersion(root: string, node: Node, exec: string -> MatchResult): (r: Result<Js.Value>)
    ensures r.Success? <==> node.File?
    ensures node.File? ==> r.value == SelectVersion(exec(node.content))
  {
    match node
    case Directory => Failure(root + " is a directory. The Regex tag identification strategy requires a file.")
    case Absent => Failure("ENOENT: no such file or directory, stat '" + root + "'")
    case File(content) => Success(SelectVersion(exec(content)))
  }
}
