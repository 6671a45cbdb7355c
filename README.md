# action-autotag, modelled in Dafny

A model of the core of the `action-autotag` GitHub Action. The action reads a version number, either
from `package.json` or with a regular expression over a file. It builds a tag name from a prefix, the
version and a suffix. It asks the GitHub API whether that tag exists. If not, it creates the tag
object, then the reference `refs/tags/<tag>`, and writes the action's outputs.

Modules, one per concept of the program:

- `Wrappers`, `Js`: `Option`, `Result`, and a pass/fail outcome. A JavaScript value is `null`,
  `undefined` or a string, with truthiness.
- `Text`: `String.prototype.trim` over the eight whitespace characters of `Text.IsSpace`, ASCII
  lower-casing, and the digits of `i + 1`.
- `TagName`: the tag name getter and the `prerelease`/`build` tests (main.js:28-56).
- `GitHub`: the API seen as an oracle [a value fixed in advance that answers every request]. The
  listing, the comparison, and the tag and reference creation are each a function from arguments to
  an answer or an error. Every request the action sends is recorded in a trace of `Call`s.
- `Changelog`: the tag message built from the compared commits, with the template placeholders
  and the default layout (main.js:58-98).
- `Tags`: the `Tag` class (main.js:15-174).
  - Each method is first a function from the old state to its result and new state (`...Step`).
  - The class `Tags.Tag` has the source's memo fields and the request trace. Its methods update
    the fields in place and are proved to agree with those functions.
  - Lemmas prove the memo invariant `Coherent` and the properties of `push`.
- `Regex`: the `Regex` version extractor (main.js:231-263).
- `Docker`: the `LABEL version=` pattern of lib/docker.js, written out as a matcher, and the
  Dockerfile path rule.
- `Action`: `run` (main.js:266-345).
  - `Expected` is the whole run as a function of the inputs and the environment.
  - `Run` performs it on a `Tags.Tag` object and is proved equal to it.
  - A failed run records `Failed`, the one failure `run` does not catch (an unrecognised strategy);
    its `Message` is the `setFailed` text.
  - `TagCalls` spells out the requests the run sends. Lemmas about runs are stated on
    `Expected`.

The file system, the package reader, the pattern engine of `new RegExp` and the GitHub client are
parameters of the run (`Action.Environment`).

The `prerelease` and `build` tests (main.js:50-56) are unanchored, and their `-…` or `+…` suffix
group is optional. So each holds iff the version has five consecutive digits or dots somewhere, and
the two always agree: `1.2.3-beta` passes `build` and `1.2.3+001` passes `prerelease`
(`TagName.ClassifiersAgree`, `TagName.ClassifierExamples`).

Other readings of the code that the model fixes:
- `tag.message` at main.js:332 reads an accessor that has only a setter, so the `tagmessage`
  output is the empty string.
- `getMessage` returns a changelog without storing it.
- `tags.shift()` removes the first tag from the stored listing itself.
- `this._sha` is set before `createRef` can fail.
- A commit whose `author` is `null` makes the author test throw, so the whole changelog falls
  back to `Version <v>`.
- `docker` is offered in the failure message but is not a strategy.

## Model

| member | source | states |
|---|---|---|
| Text.Trim | main.js:29 | the result has no leading or trailing whitespace and is no longer than the input |
| Text.TrimStartShape | main.js:29 | what is left is a suffix of the input that does not start with whitespace, and everything removed before it is whitespace |
| Text.TrimEndShape | main.js:29 | what is left is a prefix of the input that does not end with whitespace, and everything removed after it is whitespace |
| Text.TrimIdempotent | main.js:29 | trimming twice is trimming once |
| Text.TrimPadding | main.js:29 | whitespace added on either side does not change the trimmed text |
| Text.ToLower | main.js:273 | lower-cases each character and keeps the length |
| Text.ParseNatToString | main.js:78 | the decimal text of `i + 1` reads back as the same number |
| TagName.NameIsTrimmed | main.js:28-30 | a tag name never starts or ends with whitespace, whatever the parts |
| TagName.NameOfTrimmedParts | main.js:28-30 | trimmed parts are concatenated unchanged |
| TagName.NameIgnoresPadding | main.js:28-30 | whitespace around any part does not change the name |
| TagName.TestFromMeaning | main.js:50-56 | the unanchored test from position i holds iff five digits or dots occur at some j >= i |
| TagName.ClassifiersAgree | main.js:50-56 | `prerelease` and `build` are equal, and hold iff the version has five consecutive digits or dots |
| TagName.ClassifierExamples | main.js:50-56 | `1.2.3`, `1.2.3-beta` and `1.2.3+001` pass both tests; `1.2` and `v12-3` pass neither |
| Tags.Tag.constructor | main.js:16-26 | a new tag has no memoised listing, message or existence answer, empty SHA/URI/ref, and has sent nothing |
| Tags.SetMessageWins | main.js:32-36 | an empty message leaves the tag unchanged; a non-empty one is what `getMessage` returns, with no request sent |
| Tags.Tag.SetMessage | main.js:32-36 | the setter stores only a non-empty value |
| Tags.InitialCoherent | main.js:16-26 | a new tag satisfies the memo invariant |
| Tags.GetTagsCoherent | main.js:100-108 | `getTags` keeps the memo invariant, answers from the memo when it has one, and memoises a successful listing |
| Tags.GetTagsTwice | main.js:100-108 | after a successful listing, a second `getTags` sends nothing and gives the same tags |
| Tags.GetTagsRetries | main.js:100-108 | a failed listing is not memoised, so the next `getTags` sends the listing request again and fails again |
| Tags.Tag.GetTags | main.js:100-108 | the method does what `GetTagsStep` says: it answers from the memo, or sends one listing request for up to 100 tags and memoises a successful answer |
| Tags.ExistsCoherent | main.js:110-126 | `exists` keeps the memo invariant |
| Tags.ExistsMeaning | main.js:110-126 | `exists` answers whether some listed tag has the name, memoises that answer, and passes on a listing error |
| Tags.Tag.Exists | main.js:110-126 | the scan over the tags does what `ExistsStep` says |
| Tags.FirstExists | main.js:110-126 | the first check of a new tag sends exactly one listing request and scans its answer |
| Tags.MessageCoherent | main.js:58-98 | `getMessage` keeps the memo invariant, even after shifting the first tag off the memoised list |
| Tags.MessageFromTags | main.js:58-70 | without a set message the message is the changelog since the first listed tag, compared with `master`, and that tag leaves the memo |
| Tags.Tag.GetMessage | main.js:58-98 | the method does what `MessageStep` says |
| Tags.PushCoherent | main.js:128-173 | `push` keeps the memo invariant |
| Tags.PushTrace | main.js:128-140 | `push` passes on an `exists` error, does nothing more for an existing tag, and otherwise sends the tag object with the message right after the message requests |
| Tags.PushWhenExists | main.js:128-172 | pushing an existing tag sends no create request and changes nothing besides the existence check |
| Tags.PushSuccess | main.js:141-167 | a completed push took the SHA from the new tag object, and the URI and ref from the new reference `refs/tags/<tag>` |
| Tags.PushRefFailure | main.js:142-164 | when `createRef` fails, the error is passed on with the tag object's SHA already recorded |
| Tags.PushCreates | main.js:133-167 | a completed push ends its trace with the two create requests whose answers fill the SHA, URI and ref |
| Tags.PushAfterCheck | main.js:128-140 | after a negative check, `push` creates the tag with the set message, or else with the changelog |
| Tags.CreateTrace | main.js:133-167 | the create step adds the tag object request, and the reference request only when the object was made; it passes iff the reference was made |
| Tags.PushAfterAbsent | main.js:128-167 | once `exists` has answered no, a push that passes has made its creation |
| Tags.Tag.Push | main.js:128-173 | the method does what `PushStep` says |
| Changelog.EntrySucceeds | main.js:74-92 | an entry fails exactly when the commit's author is `null` |
| Changelog.EntriesSucceed | main.js:73-93 | the entries succeed iff no author is `null` |
| Changelog.EntriesMeaning | main.js:73-93 | entries that succeed are one per commit, in order, each rendered with its own position |
| Changelog.NullAuthorFallsBack | main.js:80-97 | one `null` author turns the whole changelog into `Version <v>` |
| Changelog.FallbackCases | main.js:63-97 | no listed tag, or a failed comparison, gives `Version <v>` |
| Changelog.PlaceholderSpellings | main.js:78-81 | `{{`, at most one whitespace, the keyword in any case, at most one whitespace and `}}` is matched whole |
| Changelog.PlaceholderShape | main.js:78-81 | conversely, every match is exactly such a spelling |
| Changelog.PlaceholderAcceptsSpaced | main.js:78 | `{{ NUMBER }}` is a placeholder for `number` |
| Changelog.PlaceholderRejects | main.js:78-81 | two spaces, a longer word or split braces are not a placeholder |
| Changelog.ReplaceOwnHole | main.js:78-81 | a placeholder, in any accepted spelling, is replaced by its value |
| Changelog.ReplaceOtherHole | main.js:78-81 | a placeholder of another key, in any accepted spelling, is kept as it is written |
| Changelog.ReplacePass | main.js:77-81 | one global replacement over a well-formed template fills exactly that key's placeholders, whatever their spelling, and keeps everything else |
| Changelog.TemplateExpansion | main.js:76-82 | with values free of `{` and a message free of `$`, the four replacements expand every placeholder, then trim and add a newline |
| Changelog.MessagePlaceholderFilled | main.js:77-81 | a message that holds `{{sha}}`, put into the template `{{message}}`, is filled by the later `sha` pass |
| Changelog.RenderTwo | main.js:73-93 | two entries are joined with one newline |
| Changelog.ExampleEntry | main.js:76-82 | the template `{{number}}: {{message}} ({{author}})` gives `1: msg (login)` for the first commit, and so on |
| Changelog.DefaultExample | main.js:84-93 | without a template, two commits render as `\n1) msg (login)\n(SHA: s)\n` and `2) msg\n(SHA: s)\n` joined by a newline |
| Regex.SelectVersion | main.js:245-253 | no match gives `null`; a non-empty named `version` group wins; otherwise group 1 |
| Regex.VersionFoundIffMatched | main.js:256-262 | a version is found iff the pattern matched, even if the selected group is empty or unmatched |
| Regex.EmptyNamedFallsBack | main.js:249-253 | an empty or unmatched named group falls back to group 1 |
| Regex.RegexVersion | main.js:232-243 | only a file gives a version; a directory or a missing path is an error |
| Docker.FirstLabel | lib/docker.js:13 | the match found is the leftmost position where the pattern matches |
| Docker.FirstLabelNone | lib/docker.js:13 | no match found means the pattern matches nowhere |
| Docker.LabelMatch | lib/docker.js:13 | a match has group 1 captured and no named groups |
| Docker.LabelVersionShape | lib/docker.js:13 | a version is found iff the pattern matches somewhere, and it is the run of digits and dots at the leftmost match |
| Docker.LabelAccepts | lib/docker.js:13 | `LABEL` in any case, whitespace, `version=` in any case, an optional whitespace or `+`, an optional quote and a run of digits and dots match wherever they start, whatever text comes before, with that run as the group |
| Docker.LabelAtShape | lib/docker.js:13 | conversely, every match is of that form, with a longest run of digits and dots as the group |
| Docker.LabelGroup | lib/docker.js:13 | the group of a match is a run of digits and dots that the next character does not extend |
| Docker.LabelAtOffset | lib/docker.js:13 | whether the pattern matches at a position depends only on the text from there on: text put in front moves a match by its length and changes nothing else |
| Docker.FirstLabelFrom | lib/docker.js:13 | the match found is at `p` when the pattern matches there and at no earlier position |
| Docker.NoLabelAt | lib/docker.js:13 | the pattern never matches at a character other than `l` or `L` |
| Docker.LabelLineVersion | lib/docker.js:13 | a line of that form after text in which the pattern matches nowhere gives its version |
| Docker.LabelRejects | lib/docker.js:13 | no whitespace after `LABEL`, or a letter after `version=`, is not a match |
| Docker.LabelRejectsValue | lib/docker.js:13 | after `version=`, a character that is not a digit, dot, quote, whitespace or `+` means no match |
| Docker.LabelRejectsTwoSeparators | lib/docker.js:13 | two separators in a row after `version=` mean no match, whatever follows |
| Docker.LabelRejectsDoubledSpace | lib/docker.js:13 | `LABEL version=  1.0` is not a match |
| Docker.LabelRejectsDoubledPlus | lib/docker.js:13 | `LABEL version=++1` is not a match |
| Docker.QuotedLabelExample | lib/docker.js:13 | `LABEL version="1.4.0"` gives `1.4.0` |
| Docker.LowerCaseLabelExample | lib/docker.js:13 | `label VERSION=2.0` gives `2.0` |
| Docker.DockerfileExample | lib/docker.js:13 | a `FROM node:12` line followed by `LABEL version="1.4.0"` gives `1.4.0` |
| Docker.DockerfilePath | lib/docker.js:6-11 | a missing root or path is an error; a directory means its `Dockerfile`; a file is used as it is |
| Docker.DockerDirectory | lib/docker.js:9-13 | for a directory root, the version is read from the `Dockerfile` inside it, and is found only if that is a file |
| Action.Run | main.js:266-345 | the run, setting outputs and sending requests as it goes, does what `Expected` says |
| Action.StrategySelection | main.js:273 | a pattern forces `regex`; otherwise the trimmed, lower-cased strategy input decides, and the strategy is `package` iff there is no pattern and the input is empty or reads `package` |
| Action.DockerIsNotAStrategy | main.js:281-294 | `docker` fails the action before anything is read or sent |
| Action.FailsOnlyOnUnknownStrategy | main.js:266-345 | the action fails iff the strategy is unknown, and then it wrote only `tagcreated = no` and sent nothing |
| Action.CreatedOutputs | main.js:329-334 | `tagcreated` is `yes` or `no`; `yes` means the outputs are the API's answers to the two create requests that end the trace |
| Action.CreatedIffRefMade | main.js:327-344 | `tagcreated` is `yes` iff the last request created a reference that was accepted; otherwise every tag output written is empty |
| Action.ExistingTagSkipped | main.js:318-323 | the SHA output is missing iff the tag is already listed; then only the listing was sent and `tagname` is empty |
| Action.RequestOf | main.js:307-316 | the requested tag carries the version, the trimmed tag name, and the version's `prerelease` and `build` tests, which are equal and hold iff the version has five consecutive digits or dots |
| Action.DescriptionOutputs | main.js:303-316 | with a version, the outputs hold it, the trimmed tag name, and two equal classifications |
| Action.OneListing | main.js:100-108 | a run sends at most one listing request, as its first request, and only when it has a version |
| Action.GivenMessageUsed | main.js:325-327 | a non-empty trimmed message is the tag object's message, and no commits are compared |
| Action.ChangelogMessageUsed | main.js:58-93 | without a message, the tag object carries the changelog since the first listed tag, the only tag compared |
| Action.RefFollowsTag | main.js:141-164 | a reference request comes last, right after the accepted tag object it names |
| Action.ExpectedCalls | main.js:266-345 | the requests of a run are those `TagCalls` plans, or none without a version |

## Left out

- The package strategy: `Package` (main.js:209-228) reads and parses `package.json` under `GITHUB_WORKSPACE`; the model takes the version it yields, or its error, as a parameter.
- A version that is truthy but not a string, for example a number in `package.json`, is not modelled; a version is a string or absent.
- Regular expressions given by the user: `new RegExp(pattern, 'gim')` and its `exec` are parameters; an invalid pattern is a predicate giving the error.
- lib/regex.js is not part of this model: the `Dockerfile` class is taken to inherit the behaviour of the `Regex` class of main.js.
- `Docker.DockerfilePath`: `path.join` is modelled as joining with `/`, with no normalisation of `.`, `..` or repeated separators.
- `Docker.DockerVersion`: the Dockerfile strategy is not reachable from `run`, so it has no run-level properties.
- `Text.Trim`: trims the eight characters of `Text.IsSpace`; the other Unicode spaces and the line and paragraph separators that `\s` and `trim` also accept are not modelled. Lower-casing is ASCII only.
- `Changelog.ReplaceAll`: the value is inserted literally. `String.prototype.replace` would expand `$$`, `$&`, `` $` ``, `$'` and `$1` in it, and main.js:79 passes the commit message as the value; that expansion is not modelled. `Changelog.TemplateExpansion` therefore requires a message without `$`; the number, a GitHub login and a SHA cannot contain `$`.
- `Changelog.TemplateExpansion`: it also requires literal text, message, login and SHA without `{`. Without that, a value that holds a placeholder for a later keyword is filled by the later pass (main.js:80-81); `Changelog.MessagePlaceholderFilled` states one such case, and the general case is not stated.
- The GitHub API is an oracle that returns the same answer to the same request. Only the first page of 100 tags is listed, as the source asks; pagination is not modelled.
- `GITHUB_SHA` as the tag object's target, the owner and repository, and the `type: 'commit'` field are not part of the modelled requests.
- Logging (`core.warning`, `core.debug`), the `Setup` class (main.js:178-206) and the final `console.log` are left out; they do not change outputs or requests.
- Asynchrony: the `await`s run one after another, so the model runs them in order.
- The assignments to `version` at main.js:277-278 are overwritten before use and are not modelled. The text of the error thrown without a version (main.js:296-300) is not kept: the error is caught and only blanks the outputs.
- `Changelog.ExampleEntry`: no concrete two-commit example of a template render is stated; it follows from `ExampleEntry` and `RenderTwo`.
