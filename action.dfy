/** The `run` function of main.js:266-345: it picks the extraction strategy, reads the version,
    builds the tag, checks whether it exists, pushes it, and writes the action's outputs. A
    thrown error is caught and blanks the tag outputs; only an unknown strategy fails the action.

    `Expected` states the whole run as a function of the inputs and the environment; `Run`
    performs it step by step on a `Tag` object and is proved to agree with it. */
module Action {
  import opened Wrappers
  import Js
  import Text
  import opened GitHub
  import Regex
  import TagName
  import Tags
  import Changelog

  /** The action inputs, as `core.getInput` returns them (`""` when not given). */
  datatype Inputs = Inputs(
    root: string,
    packageRoot: string,
    regexPattern: string,
    strategy: string,
    tagPrefix: string,
    tagSuffix: string,
    tagMessage: string,
    commitMessageTemplate: string)

  /** What the run sees besides its inputs. */
  datatype Environment = Environment(
    packageVersion: string -> Result<Js.Value>,     // `new Package(root).version`, or the error it throws
    resolve: string -> Regex.Node,                  // the file system, at a path resolved by `path.resolve`
    validPattern: string -> bool,                   // `new RegExp(pattern, 'gim')` does not throw
    exec: (string, string) -> Regex.MatchResult,    // `exec` of the compiled pattern on a content
    github: Client)

  /** The outputs the action sets with `core.setOutput`. */
  datatype Output =
    VersionOut | TagRequested | PrereleaseOut | BuildOut
    | TagNameOut | TagSha | TagUri | TagMessage | TagRef | TagCreated

  /** The name each output is published under. */
  function OutputName(o: Output): string {
    match o
    case VersionOut => "version"
    case TagRequested => "tagrequested"
    case PrereleaseOut => "prerelease"
    case BuildOut => "build"
    case TagNameOut => "tagname"
    case TagSha => "tagsha"
    case TagUri => "taguri"
    case TagMessage => "tagmessage"
    case TagRef => "tagref"
    case TagCreated => "tagcreated"
  }

  /** Why the action failed: the one failure `run` does not catch is an unrecognised strategy. */
  datatype Failed = Unrecognized(strategy: string) {
    /** The `setFailed` message of main.js:292. */
    function Message(): string {
      "\"" + strategy + "\" is not a recognized tagging strategy. Choose from: 'package' (package.json), "
      + "'docker' (uses Dockerfile), or 'regex' (JS-based RegExp)."
    }
  }

  /** A run's effect: its outputs, the requests sent, and the failure the action reports. */
  datatype RunResult = RunResult(outputs: map<Output, string>, calls: seq<Call>, failed: Option<Failed>)

  /** `root || package_root || './'` (main.js:272). */
  function RootInput(inputs: Inputs): string {
    if inputs.root != "" then inputs.root
    else if inputs.packageRoot != "" then inputs.packageRoot
    else "./"
  }

  /** The strategy selection of main.js:273: a pattern forces `regex`; otherwise the strategy input,
      `package` by default, trimmed and lower-cased. The default is written already trimmed and
      lower-cased, which `PackageName` shows it is. */
  function StrategyName(inputs: Inputs): string {
    if |Text.Trim(inputs.regexPattern)| > 0 then "regex"
    else if inputs.strategy == "" then "package"
    else Text.ToLower(Text.Trim(inputs.strategy))
  }

  predicate Recognized(strategy: string) {
    strategy == "package" || strategy == "regex"
  }

  /** The version a recognised strategy reads (main.js:281-290). */
  function ExtractVersion(strategy: string, inputs: Inputs, env: Environment): Result<Js.Value>
    requires Recognized(strategy)
  {
    var root := RootInput(inputs);
    if strategy == "package" then env.packageVersion(root)
    else if !env.validPattern(inputs.regexPattern) then Failure("Invalid regular expression: /" + inputs.regexPattern + "/")
    else Regex.RegexVersion(root, env.resolve(root), content => env.exec(inputs.regexPattern, content))
  }

  function YesNo(b: bool): string {
    if b then "yes" else "no"
  }

  /** The outputs the catch block of main.js:335-344 writes over the ones set so far. */
  function Blanked(outputs: map<Output, string>): map<Output, string> {
    outputs[TagNameOut := ""][TagSha := ""][TagUri := ""][TagMessage := ""][TagRef := ""][TagCreated := "no"]
  }

  /** The tag a run asks for, once a version is known: the version, the tag name and the two
      classifications (main.js:307-316). */
  datatype Request = Request(version: string, name: string, prerelease: bool, build: bool)

  function RequestOf(version: string, inputs: Inputs): (q: Request)
    ensures q.version == version && q.name == TagName.Name(inputs.tagPrefix, version, inputs.tagSuffix)
    ensures Text.IsTrimmed(q.name) && q.prerelease == q.build
    ensures q.prerelease == TagName.Prerelease(version) && q.build == TagName.Build(version)
    ensures q.prerelease <==> TagName.HasNumericRun(version)
  {
    TagName.NameIsTrimmed(inputs.tagPrefix, version, inputs.tagSuffix);
    TagName.ClassifiersAgree(version);
    Request(version, TagName.Name(inputs.tagPrefix, version, inputs.tagSuffix), TagName.Prerelease(version), TagName.Build(version))
  }

  /** The outputs describing the requested tag (main.js:303, 314-316). */
  function Described(outputs: map<Output, string>, q: Request): map<Output, string> {
    outputs[VersionOut := q.version][TagRequested := q.name][PrereleaseOut := YesNo(q.prerelease)][BuildOut := YesNo(q.build)]
  }

  /** The outputs of a completed push (main.js:329-334). `tag.message` reads an accessor that has
      no getter, so its value is `undefined`, which is written as the empty string. */
  function Created(outputs: map<Output, string>, name: string, s: Tags.State): map<Output, string> {
    outputs[TagNameOut := name][TagSha := s.sha][TagUri := s.uri][TagMessage := ""][TagRef := s.ref][TagCreated := "yes"]
  }

  /** The tag part of the run, once a version is known (main.js:307-334). */
  function TagPart(outputs: map<Output, string>, q: Request, inputs: Inputs, gh: Client): RunResult {
    var name := q.name;
    var version := q.version;
    var (ex, s1) := Tags.ExistsStep(Tags.Initial(), name, gh);
    match ex
    case Failure(_) => RunResult(Blanked(outputs), s1.calls, None)
    case Success(found) =>
      if found then RunResult(outputs[TagNameOut := ""], s1.calls, None)
      else
        var s2 := Tags.SetMessageStep(s1, Text.Trim(inputs.tagMessage));
        var (pushed, s3) := Tags.PushStep(s2, name, version, gh, inputs.commitMessageTemplate);
        match pushed
        case Fail(_) => RunResult(Blanked(outputs), s3.calls, None)
        case Pass => RunResult(Created(outputs, name, s3), s3.calls, None)
  }

  /** The whole run. */
  function Expected(inputs: Inputs, env: Environment): RunResult {
    var outputs := map[TagCreated := "no"];
    var strategy := StrategyName(inputs);
    if !Recognized(strategy) then RunResult(outputs, [], Some(Unrecognized(strategy)))
    else
      match ExtractVersion(strategy, inputs, env)
      case Failure(_) => RunResult(Blanked(outputs), [], None)
      case Success(v) =>
        if !Js.Truthy(v) then RunResult(Blanked(outputs), [], None)
        else
          var q := RequestOf(v.s, inputs);
          TagPart(Described(outputs, q), q, inputs, env.github)
  }

  /** `run`, setting the outputs as it goes. */
  method Run(inputs: Inputs, env: Environment) returns (r: RunResult)
    ensures r == Expected(inputs, env)
  {
    var outputs := map[TagCreated := "no"];
    var strategy := StrategyName(inputs);
    if !Recognized(strategy) {
      return RunResult(outputs, [], Some(Unrecognized(strategy)));
    }
    var extracted := ExtractVersion(strategy, inputs, env);
    if extracted.Failure? || !Js.Truthy(extracted.value) {
      return RunResult(Blanked(outputs), [], None);
    }
    var version := extracted.value.s;
    outputs := outputs[VersionOut := version];
    var tag := new Tags.Tag(inputs.tagPrefix, version, inputs.tagSuffix, env.github);
    outputs := outputs[TagRequested := tag.Name()];
    outputs := outputs[PrereleaseOut := YesNo(tag.Prerelease())];
    outputs := outputs[BuildOut := YesNo(tag.Build())];
    var found := tag.Exists();
    if found.Failure? {
      return RunResult(Blanked(outputs), tag.calls, None);
    }
    if found.value {
      outputs := outputs[TagNameOut := ""];
      return RunResult(outputs, tag.calls, None);
    }
    tag.SetMessage(Text.Trim(inputs.tagMessage));
    var pushed := tag.Push(inputs.commitMessageTemplate);
    if pushed.Fail? {
      return RunResult(Blanked(outputs), tag.calls, None);
    }
    outputs := outputs[TagNameOut := tag.Name()];
    outputs := outputs[TagSha := tag.sha];
    outputs := outputs[TagUri := tag.uri];
    outputs := outputs[TagMessage := ""];
    outputs := outputs[TagRef := tag.ref];
    outputs := outputs[TagCreated := "yes"];
    return RunResult(outputs, tag.calls, None);
  }

  // ---- Properties of a run ----

  /** A pattern forces the regex strategy; otherwise the strategy input decides, in any case and
      with surrounding whitespace ignored, and `package` is the default. A strategy input made of
      whitespace only selects the empty strategy, which is not recognised. */
  lemma StrategySelection(inputs: Inputs)
    ensures (StrategyName(inputs) == "regex")
              <==> (|Text.Trim(inputs.regexPattern)| > 0 || Text.ToLower(Text.Trim(inputs.strategy)) == "regex")
    ensures |Text.Trim(inputs.regexPattern)| == 0 && inputs.strategy == "" ==> StrategyName(inputs) == "package"
    ensures (|Text.Trim(inputs.regexPattern)| == 0 && inputs.strategy != "" && Text.Trim(inputs.strategy) == "")
              ==> !Recognized(StrategyName(inputs))
    ensures (StrategyName(inputs) == "package")
              <==> (|Text.Trim(inputs.regexPattern)| == 0
                    && (inputs.strategy == "" || Text.ToLower(Text.Trim(inputs.strategy)) == "package"))
    ensures |Text.Trim(inputs.regexPattern)| == 0 && inputs.strategy != "" ==>
              StrategyName(inputs) == Text.ToLower(Text.Trim(inputs.strategy))
  {
    PackageName();
    if inputs.strategy == "" {
      assert Text.Trim(inputs.strategy) == "";
    }
  }

  /** Trimming and lower-casing the default strategy leaves it as it is. */
  lemma PackageName()
    ensures Text.ToLower(Text.Trim("package")) == "package"
  {
    Text.TrimOfTrimmed("package");
  }

  /** `docker` is offered in the failure message but has no case of its own: choosing it fails the
      action before anything is read or requested. */
  lemma DockerIsNotAStrategy(inputs: Inputs, env: Environment)
    requires |Text.Trim(inputs.regexPattern)| == 0 && Text.ToLower(Text.Trim(inputs.strategy)) == "docker"
    ensures Expected(inputs, env) == RunResult(map[TagCreated := "no"], [], Some(Unrecognized("docker")))
  {
    assert |Text.ToLower(Text.Trim(inputs.strategy))| <= |inputs.strategy|;
    assert StrategyName(inputs) == "docker";
  }

  /** The action fails exactly when the strategy is not recognised, and then it has written only
      `tagcreated = no` and sent nothing. Every other error is caught. */
  lemma FailsOnlyOnUnknownStrategy(inputs: Inputs, env: Environment)
    ensures Expected(inputs, env).failed.Some? <==> !Recognized(StrategyName(inputs))
    ensures Expected(inputs, env).failed.Some? ==>
              Expected(inputs, env).outputs == map[TagCreated := "no"] && Expected(inputs, env).calls == []
  {
    RunCases(inputs, env);
    if RunVersion(inputs, env).Some? {
      var v := RunVersion(inputs, env).value;
      TagPartCases(Described(map[TagCreated := "no"], RequestOf(v, inputs)), RequestOf(v, inputs), inputs, env.github);
    }
  }

  /** `tagcreated` is always written, as `yes` or `no`. With `yes` the trace ends with the two
      create requests, tag object for `tagname` first, and `tagsha`, `taguri` and `tagref` are
      the values the API returned for them; `tagmessage` is empty. */
  lemma CreatedOutputs(inputs: Inputs, env: Environment)
    ensures var r := Expected(inputs, env);
            TagCreated in r.outputs && (r.outputs[TagCreated] == "yes" || r.outputs[TagCreated] == "no")
    ensures var r := Expected(inputs, env);
            r.outputs[TagCreated] == "yes" ==> r.failed.None? && ReportsCreation(r, env.github)
  {
    RunCases(inputs, env);
    if RunVersion(inputs, env).Some? {
      var v := RunVersion(inputs, env).value;
      DescribedFacts(RequestOf(v, inputs));
      CreatedTagPart(Described(map[TagCreated := "no"], RequestOf(v, inputs)), RequestOf(v, inputs), inputs, env.github);
    }
  }

  /** The outputs of a created tag are the API's answers to the last two requests. */
  predicate ReportsCreation(r: RunResult, gh: Client) {
    TagNameOut in r.outputs && TagSha in r.outputs && TagUri in r.outputs && TagMessage in r.outputs && TagRef in r.outputs
    && r.outputs[TagMessage] == ""
    && Tags.Creation(r.calls, r.outputs[TagNameOut], r.outputs[TagSha], r.outputs[TagUri], r.outputs[TagRef], gh)
  }

  lemma CreatedTagPart(outputs: map<Output, string>, q: Request, inputs: Inputs, gh: Client)
    requires TagCreated in outputs && outputs[TagCreated] == "no"
    ensures var r := TagPart(outputs, q, inputs, gh);
            TagCreated in r.outputs && (r.outputs[TagCreated] == "yes" || r.outputs[TagCreated] == "no")
            && (r.outputs[TagCreated] == "yes" ==> r.failed.None? && ReportsCreation(r, gh))
  {
    TagPartCases(outputs, q, inputs, gh);
    if gh.listTags.Success? && !Tags.HasName(gh.listTags.value, q.name) {
      var s1 := Tags.ExistsStep(Tags.Initial(), q.name, gh).1;
      var s2 := Tags.SetMessageStep(s1, Text.Trim(inputs.tagMessage));
      var (pushed, s3) := Tags.PushStep(s2, q.name, q.version, gh, inputs.commitMessageTemplate);
      Tags.FirstExists(q.name, gh);
      Tags.PushAfterAbsent(s2, q.name, q.version, gh, inputs.commitMessageTemplate);
      FinishCreation(outputs, q.name, pushed, s3, gh);
    } else if gh.listTags.Failure? {
      BlankedKeys(outputs);
    }
  }

  /** What the push leaves reports the creation it made, if it made one. */
  lemma FinishCreation(outputs: map<Output, string>, name: string, pushed: Outcome, s: Tags.State, gh: Client)
    requires pushed.Pass? ==> Tags.Creation(s.calls, name, s.sha, s.uri, s.ref, gh)
    ensures var r := RunResult(if pushed.Pass? then Created(outputs, name, s) else Blanked(outputs), s.calls, None);
            TagCreated in r.outputs && (r.outputs[TagCreated] == "yes" || r.outputs[TagCreated] == "no")
            && (r.outputs[TagCreated] == "yes" ==> r.failed.None? && ReportsCreation(r, gh))
  {
    BlankedKeys(outputs);
    CreatedKeys(outputs, name, s);
  }

  /** The three ways the tag part ends: a listing error blanks the outputs; a listed tag empties the
      name only; otherwise the push decides between the created outputs and the blanks. */
  lemma TagPartCases(outputs: map<Output, string>, q: Request, inputs: Inputs, gh: Client)
    ensures var name := q.name;
            var s1 := Tags.ExistsStep(Tags.Initial(), name, gh).1;
            var (pushed, s3) := Tags.PushStep(Tags.SetMessageStep(s1, Text.Trim(inputs.tagMessage)), name, q.version, gh, inputs.commitMessageTemplate);
            var r := TagPart(outputs, q, inputs, gh);
            r.failed.None?
            && (gh.listTags.Failure? ==> r.outputs == Blanked(outputs))
            && (gh.listTags.Success? && Tags.HasName(gh.listTags.value, name) ==> r.outputs == outputs[TagNameOut := ""])
            && (gh.listTags.Success? && !Tags.HasName(gh.listTags.value, name) ==>
                  r.calls == s3.calls && r.outputs == (if pushed.Pass? then Created(outputs, name, s3) else Blanked(outputs)))
  {
    Tags.FirstExists(q.name, gh);
  }

  // ---- The requests a run sends ----

  /** The two create requests for a tag, the reference one only when the tag object was made. */
  function CreationCalls(name: string, msg: string, gh: Client): seq<Call> {
    [CreateTag(name, msg)]
    + match gh.createTag(name, msg)
      case Failure(_) => []
      case Success(nt) => [CreateRef("refs/tags/" + nt.tag, nt.sha)]
  }

  /** The requests of the tag part, written out as a plan: one listing; then nothing when it fails
      or lists the tag; otherwise, without a given message, the comparison with the first listed
      tag, and the creation with the given message or the changelog. */
  function TagCalls(name: string, given: string, version: string, template: string, gh: Client): seq<Call> {
    [ListTags(PageSize)]
    + match gh.listTags
      case Failure(_) => []
      case Success(ts) =>
        if Tags.HasName(ts, name) then []
        else
          var compare := if given != "" || |ts| == 0 then [] else [CompareCommits(ts[0].name, Head)];
          var msg := if given != "" then given else Changelog.Message(version, ts, gh.compareCommits, template);
          compare + CreationCalls(name, msg, gh)
  }

  /** The last request created a reference, and the API accepted it. */
  predicate RefMade(calls: seq<Call>, gh: Client) {
    |calls| > 0 && calls[|calls| - 1].CreateRef?
    && gh.createRef(calls[|calls| - 1].ref, calls[|calls| - 1].sha).Success?
  }

  lemma TagPartCalls(outputs: map<Output, string>, q: Request, inputs: Inputs, gh: Client)
    ensures TagPart(outputs, q, inputs, gh).calls
            == TagCalls(q.name, Text.Trim(inputs.tagMessage),
                        q.version, inputs.commitMessageTemplate, gh)
  {
    var name := q.name;
    Tags.FirstExists(name, gh);
    if gh.listTags.Success? && !Tags.HasName(gh.listTags.value, name) {
      var s1 := Tags.ExistsStep(Tags.Initial(), name, gh).1;
      PushCalls(s1, gh.listTags.value, name, Text.Trim(inputs.tagMessage), q.version, inputs.commitMessageTemplate, gh);
    }
  }

  lemma PushCalls(s1: Tags.State, ts: seq<RemoteTag>, name: string, given: string, version: string, template: string, gh: Client)
    requires gh.listTags == Success(ts) && !Tags.HasName(ts, name)
    requires s1 == Tags.State(Some(ts), None, Some(false), "", "", "", [ListTags(PageSize)])
    ensures Tags.PushStep(Tags.SetMessageStep(s1, given), name, version, gh, template).1.calls
            == TagCalls(name, given, version, template, gh)
    ensures Tags.PushStep(Tags.SetMessageStep(s1, given), name, version, gh, template).0.Pass?
            <==> RefMade(TagCalls(name, given, version, template, gh), gh)
  {
    var s2 := Tags.SetMessageStep(s1, given);
    Tags.PushAfterCheck(s2, name, version, gh, template);
    var (msg, s3) := Tags.MessageStep(s2, version, gh, template);
    Tags.CreateTrace(s3, name, msg, gh);
    var compare := if given != "" || |ts| == 0 then [] else [CompareCommits(ts[0].name, Head)];
    assert s3.calls == [ListTags(PageSize)] + compare;
    assert msg == if given != "" then given else Changelog.Message(version, ts, gh.compareCommits, template);
    var s5 := Tags.CreateStep(s3, name, msg, gh).1;
    assert s5.calls == s3.calls + CreationCalls(name, msg, gh);
    assert TagCalls(name, given, version, template, gh) == [ListTags(PageSize)] + (compare + CreationCalls(name, msg, gh));
  }

  /** What the tag part writes: the name and `tagcreated` always, the description untouched, and
      blanks whenever no tag was created. */
  lemma TagPartKeys(outputs: map<Output, string>, q: Request, inputs: Inputs, gh: Client)
    requires TagCreated in outputs && outputs[TagCreated] == "no" && TagSha !in outputs
    ensures var r := TagPart(outputs, q, inputs, gh);
            r.failed.None?
            && TagNameOut in r.outputs && TagCreated in r.outputs && KeepsDescription(outputs, r.outputs)
            && (r.outputs[TagCreated] == "no" ==> NothingReported(r.outputs))
  {
    TagPartCases(outputs, q, inputs, gh);
    if gh.listTags.Success? && !Tags.HasName(gh.listTags.value, q.name) {
      var s1 := Tags.ExistsStep(Tags.Initial(), q.name, gh).1;
      var (pushed, s3) := Tags.PushStep(Tags.SetMessageStep(s1, Text.Trim(inputs.tagMessage)), q.name, q.version, gh, inputs.commitMessageTemplate);
      FinishKeys(outputs, q.name, pushed, s3);
    } else if gh.listTags.Failure? {
      BlankedKeys(outputs);
    }
  }

  /** The outputs the push leaves: created or blanked. */
  lemma FinishKeys(outputs: map<Output, string>, name: string, pushed: Outcome, s: Tags.State)
    ensures var o := if pushed.Pass? then Created(outputs, name, s) else Blanked(outputs);
            TagNameOut in o && TagCreated in o && KeepsDescription(outputs, o)
            && (o[TagCreated] == "no" ==> NothingReported(o))
  {
    BlankedKeys(outputs);
    CreatedKeys(outputs, name, s);
  }

  /** The tag part reports a creation exactly when its last request made a reference, and leaves
      the SHA out exactly when the tag is already listed. */
  lemma TagPartCreated(outputs: map<Output, string>, q: Request, inputs: Inputs, gh: Client)
    requires TagCreated in outputs && outputs[TagCreated] == "no" && TagSha !in outputs
    ensures var r := TagPart(outputs, q, inputs, gh);
            TagCreated in r.outputs
            && (r.outputs[TagCreated] == "yes" <==> RefMade(r.calls, gh))
            && (TagSha !in r.outputs <==> gh.listTags.Success? && Tags.HasName(gh.listTags.value, q.name))
  {
    TagPartCases(outputs, q, inputs, gh);
    TagPartCalls(outputs, q, inputs, gh);
    BlankedKeys(outputs);
    if gh.listTags.Success? && !Tags.HasName(gh.listTags.value, q.name) {
      var s1 := Tags.ExistsStep(Tags.Initial(), q.name, gh).1;
      Tags.FirstExists(q.name, gh);
      PushCalls(s1, gh.listTags.value, q.name, Text.Trim(inputs.tagMessage), q.version, inputs.commitMessageTemplate, gh);
      var s3 := Tags.PushStep(Tags.SetMessageStep(s1, Text.Trim(inputs.tagMessage)), q.name, q.version, gh, inputs.commitMessageTemplate).1;
      CreatedKeys(outputs, q.name, s3);
    }
  }

  /** The outputs describing the requested tag are there, with their values. */
  predicate Describes(outputs: map<Output, string>, q: Request) {
    VersionOut in outputs && outputs[VersionOut] == q.version
    && TagRequested in outputs && outputs[TagRequested] == q.name
    && PrereleaseOut in outputs && outputs[PrereleaseOut] == YesNo(q.prerelease)
    && BuildOut in outputs && outputs[BuildOut] == YesNo(q.build)
  }

  /** The description outputs of `a` are in `b` unchanged. */
  predicate KeepsDescription(a: map<Output, string>, b: map<Output, string>) {
    (VersionOut in a ==> VersionOut in b && b[VersionOut] == a[VersionOut])
    && (TagRequested in a ==> TagRequested in b && b[TagRequested] == a[TagRequested])
    && (PrereleaseOut in a ==> PrereleaseOut in b && b[PrereleaseOut] == a[PrereleaseOut])
    && (BuildOut in a ==> BuildOut in b && b[BuildOut] == a[BuildOut])
  }

  lemma BlankedKeys(outputs: map<Output, string>)
    ensures var b := Blanked(outputs);
            b[TagCreated] == "no" && NothingReported(b) && TagSha in b && KeepsDescription(outputs, b)
  {
  }

  lemma CreatedKeys(outputs: map<Output, string>, name: string, s: Tags.State)
    ensures var c := Created(outputs, name, s);
            c[TagCreated] == "yes" && TagSha in c && KeepsDescription(outputs, c)
  {
  }

  /** The tag outputs say no tag was made: the name is empty, and so is every other tag output
      that was written. */
  predicate NothingReported(outputs: map<Output, string>) {
    TagNameOut in outputs && outputs[TagNameOut] == ""
    && (TagSha in outputs ==>
          TagUri in outputs && TagMessage in outputs && TagRef in outputs
          && outputs[TagSha] == "" && outputs[TagUri] == "" && outputs[TagMessage] == "" && outputs[TagRef] == "")
  }

  // ---- Properties of the requests ----

  /** The version a run goes on with: the strategy is recognised and read a truthy string. */
  function RunVersion(inputs: Inputs, env: Environment): Option<string> {
    var strategy := StrategyName(inputs);
    if !Recognized(strategy) then None
    else match ExtractVersion(strategy, inputs, env)
      case Failure(_) => None
      case Success(v) => if Js.Truthy(v) then Some(v.s) else None
  }

  /** Without a version the run writes its blanks, or fails on the strategy, and sends nothing;
      with one it is the tag part on the described outputs. */
  lemma RunCases(inputs: Inputs, env: Environment)
    ensures var r := Expected(inputs, env);
            match RunVersion(inputs, env)
            case None =>
              r.calls == []
              && (r.failed.None? <==> Recognized(StrategyName(inputs)))
              && r.outputs == (if r.failed.None? then Blanked(map[TagCreated := "no"]) else map[TagCreated := "no"])
            case Some(v) =>
              v != "" && r == TagPart(Described(map[TagCreated := "no"], RequestOf(v, inputs)), RequestOf(v, inputs), inputs, env.github)
  {
    if RunVersion(inputs, env).Some? {
      RunWithVersion(inputs, env);
    } else {
      RunWithoutVersion(inputs, env);
    }
  }

  lemma RunWithVersion(inputs: Inputs, env: Environment)
    requires RunVersion(inputs, env).Some?
    ensures var v := RunVersion(inputs, env).value;
            v != "" && Expected(inputs, env)
                       == TagPart(Described(map[TagCreated := "no"], RequestOf(v, inputs)), RequestOf(v, inputs), inputs, env.github)
  {
  }

  lemma RunWithoutVersion(inputs: Inputs, env: Environment)
    requires RunVersion(inputs, env).None?
    ensures var r := Expected(inputs, env);
            r.calls == []
            && (r.failed.None? <==> Recognized(StrategyName(inputs)))
            && r.outputs == (if r.failed.None? then Blanked(map[TagCreated := "no"]) else map[TagCreated := "no"])
  {
  }

  /** The described outputs, before the tag part writes to them. */
  lemma DescribedFacts(q: Request)
    ensures var o := Described(map[TagCreated := "no"], q);
            TagCreated in o && o[TagCreated] == "no" && TagSha !in o && TagNameOut !in o && Describes(o, q)
  {
  }

  /** The requests of a whole run follow the plan of `TagCalls`. */
  lemma ExpectedCalls(inputs: Inputs, env: Environment)
    ensures Expected(inputs, env).calls
            == match RunVersion(inputs, env)
               case None => []
               case Some(v) =>
                 TagCalls(TagName.Name(inputs.tagPrefix, v, inputs.tagSuffix), Text.Trim(inputs.tagMessage),
                          v, inputs.commitMessageTemplate, env.github)
  {
    RunCases(inputs, env);
    if RunVersion(inputs, env).Some? {
      var v := RunVersion(inputs, env).value;
      TagPartCalls(Described(map[TagCreated := "no"], RequestOf(v, inputs)), RequestOf(v, inputs), inputs, env.github);
    }
  }

  /** The plan lists the tags once, first, and never again. */
  lemma TagCallsListOnce(name: string, given: string, version: string, template: string, gh: Client)
    ensures var calls := TagCalls(name, given, version, template, gh);
            calls[0] == ListTags(PageSize) && ListingCount(calls) == 1
  {
    var calls := TagCalls(name, given, version, template, gh);
    NoListings(calls[1..]);
  }

  lemma {:induction false} NoListings(calls: seq<Call>)
    requires forall c :: c in calls ==> !c.ListTags?
    ensures ListingCount(calls) == 0
  {
    if calls != [] {
      assert calls[0] in calls;
      forall c | c in calls[1..] ensures !c.ListTags? {
        assert c in calls;
      }
      NoListings(calls[1..]);
    }
  }

  /** With a message given, every tag object carries it and no comparison is requested. */
  lemma TagCallsGiven(name: string, given: string, version: string, template: string, gh: Client)
    requires given != ""
    ensures forall c :: c in TagCalls(name, given, version, template, gh) ==>
              !c.CompareCommits? && (c.CreateTag? ==> c.message == given)
  {
  }

  /** Without one, the tag object carries the changelog since the first listed tag, which is the
      only one compared with the head. */
  lemma TagCallsChangelog(name: string, version: string, template: string, gh: Client)
    ensures forall c :: c in TagCalls(name, "", version, template, gh) && c.CreateTag? ==>
              gh.listTags.Success? && c.message == Changelog.Message(version, gh.listTags.value, gh.compareCommits, template)
    ensures forall c :: c in TagCalls(name, "", version, template, gh) && c.CompareCommits? ==>
              gh.listTags.Success? && |gh.listTags.value| > 0 && c == CompareCommits(gh.listTags.value[0].name, Head)
  {
  }

  /** A reference is created only as the last request, right after the tag object it points to,
      and only when the API made that object. */
  lemma TagCallsRef(name: string, given: string, version: string, template: string, gh: Client)
    ensures var calls := TagCalls(name, given, version, template, gh);
            forall i :: 0 <= i < |calls| && calls[i].CreateRef? ==>
              i == |calls| - 1 && i >= 1 && calls[i - 1].CreateTag? && calls[i - 1].tag == name
              && gh.createTag(calls[i - 1].tag, calls[i - 1].message).Success?
              && calls[i] == CreateRef("refs/tags/" + gh.createTag(calls[i - 1].tag, calls[i - 1].message).value.tag,
                                       gh.createTag(calls[i - 1].tag, calls[i - 1].message).value.sha)
  {
  }

  // ---- Properties of a whole run, on its requests ----

  /** A run lists the tags at most once, as its first request, and only once it has a version. */
  lemma OneListing(inputs: Inputs, env: Environment)
    ensures var r := Expected(inputs, env);
            ListingCount(r.calls) == (if RunVersion(inputs, env).Some? then 1 else 0)
            && (r.calls != [] ==> r.calls[0] == ListTags(PageSize))
  {
    ExpectedCalls(inputs, env);
    if RunVersion(inputs, env).Some? {
      var v := RunVersion(inputs, env).value;
      TagCallsListOnce(TagName.Name(inputs.tagPrefix, v, inputs.tagSuffix), Text.Trim(inputs.tagMessage),
                       v, inputs.commitMessageTemplate, env.github);
    }
  }

  /** A given tag message, once trimmed, is the message of the tag object, and then no commits are
      compared. */
  lemma GivenMessageUsed(inputs: Inputs, env: Environment)
    requires Text.Trim(inputs.tagMessage) != ""
    ensures forall c :: c in Expected(inputs, env).calls ==>
              !c.CompareCommits? && (c.CreateTag? ==> c.message == Text.Trim(inputs.tagMessage))
  {
    ExpectedCalls(inputs, env);
    if RunVersion(inputs, env).Some? {
      var v := RunVersion(inputs, env).value;
      TagCallsGiven(TagName.Name(inputs.tagPrefix, v, inputs.tagSuffix), Text.Trim(inputs.tagMessage),
                    v, inputs.commitMessageTemplate, env.github);
    }
  }

  /** Without a tag message, the tag object carries the changelog of the version since the latest
      listed tag, rendered with the commit message template. */
  lemma ChangelogMessageUsed(inputs: Inputs, env: Environment)
    requires Text.Trim(inputs.tagMessage) == ""
    ensures forall c :: c in Expected(inputs, env).calls && c.CreateTag? ==>
              RunVersion(inputs, env).Some? && env.github.listTags.Success?
              && c.message == Changelog.Message(RunVersion(inputs, env).value, env.github.listTags.value,
                                                  env.github.compareCommits, inputs.commitMessageTemplate)
    ensures forall c :: c in Expected(inputs, env).calls && c.CompareCommits? ==>
              env.github.listTags.Success? && |env.github.listTags.value| > 0
              && c == CompareCommits(env.github.listTags.value[0].name, Head)
  {
    ExpectedCalls(inputs, env);
    if RunVersion(inputs, env).Some? {
      var v := RunVersion(inputs, env).value;
      TagCallsChangelog(TagName.Name(inputs.tagPrefix, v, inputs.tagSuffix), v, inputs.commitMessageTemplate, env.github);
    }
  }

  /** A reference request only ever follows the creation of its tag object, as the last request
      of the run. */
  lemma RefFollowsTag(inputs: Inputs, env: Environment)
    ensures var calls := Expected(inputs, env).calls;
            forall i :: 0 <= i < |calls| && calls[i].CreateRef? ==>
              i == |calls| - 1 && i >= 1 && calls[i - 1].CreateTag?
              && env.github.createTag(calls[i - 1].tag, calls[i - 1].message).Success?
              && calls[i] == CreateRef("refs/tags/" + env.github.createTag(calls[i - 1].tag, calls[i - 1].message).value.tag,
                                       env.github.createTag(calls[i - 1].tag, calls[i - 1].message).value.sha)
  {
    ExpectedCalls(inputs, env);
    if RunVersion(inputs, env).Some? {
      var v := RunVersion(inputs, env).value;
      TagCallsRef(TagName.Name(inputs.tagPrefix, v, inputs.tagSuffix), Text.Trim(inputs.tagMessage),
                  v, inputs.commitMessageTemplate, env.github);
    }
  }

  // ---- Properties of a whole run, on its outputs ----

  /** `tagcreated` is `yes` exactly when the last request created a reference and the API accepted
      it. When it is `no` and the action did not fail, the tag outputs report nothing: the name is
      empty, and so are the SHA, URI, message and ref whenever they were written. In particular a
      tag object whose reference was refused is not reported. */
  lemma CreatedIffRefMade(inputs: Inputs, env: Environment)
    ensures var r := Expected(inputs, env);
            TagCreated in r.outputs
            && (r.outputs[TagCreated] == "yes" <==> RefMade(r.calls, env.github))
            && (r.outputs[TagCreated] == "no" && r.failed.None? ==> NothingReported(r.outputs))
  {
    RunCases(inputs, env);
    if RunVersion(inputs, env).Some? {
      var v := RunVersion(inputs, env).value;
      DescribedFacts(RequestOf(v, inputs));
      TagPartKeys(Described(map[TagCreated := "no"], RequestOf(v, inputs)), RequestOf(v, inputs), inputs, env.github);
      TagPartCreated(Described(map[TagCreated := "no"], RequestOf(v, inputs)), RequestOf(v, inputs), inputs, env.github);
    } else {
      BlankedKeys(map[TagCreated := "no"]);
    }
  }

  /** A run that does not fail leaves out the SHA exactly when the requested tag is already listed;
      then it sent the listing request only, and reports an empty name. */
  lemma ExistingTagSkipped(inputs: Inputs, env: Environment)
    ensures var r := Expected(inputs, env);
            var v := RunVersion(inputs, env);
            r.failed.None? ==>
              ((TagSha !in r.outputs) <==>
               (v.Some? && env.github.listTags.Success?
                && Tags.HasName(env.github.listTags.value, TagName.Name(inputs.tagPrefix, v.value, inputs.tagSuffix))))
    ensures var r := Expected(inputs, env);
            TagSha !in r.outputs && r.failed.None? ==>
              r.calls == [ListTags(PageSize)] && r.outputs[TagNameOut] == "" && r.outputs[TagCreated] == "no"
  {
    RunCases(inputs, env);
    ExpectedCalls(inputs, env);
    if RunVersion(inputs, env).Some? {
      var v := RunVersion(inputs, env).value;
      DescribedFacts(RequestOf(v, inputs));
      TagPartKeys(Described(map[TagCreated := "no"], RequestOf(v, inputs)), RequestOf(v, inputs), inputs, env.github);
      TagPartCreated(Described(map[TagCreated := "no"], RequestOf(v, inputs)), RequestOf(v, inputs), inputs, env.github);
    } else {
      BlankedKeys(map[TagCreated := "no"]);
    }
  }

  /** A run with a version writes the version, the requested name, which has no surrounding
      whitespace, and the two classifications, which always agree. */
  lemma DescriptionOutputs(inputs: Inputs, env: Environment)
    ensures var r := Expected(inputs, env);
            RunVersion(inputs, env).Some? ==>
              var q := RequestOf(RunVersion(inputs, env).value, inputs);
              Describes(r.outputs, q) && q.name == TagName.Name(inputs.tagPrefix, q.version, inputs.tagSuffix)
              && Text.IsTrimmed(r.outputs[TagRequested])
              && r.outputs[PrereleaseOut] == r.outputs[BuildOut]
    ensures RunVersion(inputs, env).None? ==> VersionOut !in Expected(inputs, env).outputs
  {
    RunCases(inputs, env);
    if RunVersion(inputs, env).Some? {
      var q := RequestOf(RunVersion(inputs, env).value, inputs);
      DescribedFacts(q);
      TagPartKeys(Described(map[TagCreated := "no"], q), q, inputs, env.github);
    }
  }
}
