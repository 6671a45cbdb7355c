/** The `Tag` aggregate of main.js:15-174: the tag the action wants to create, its three
    memo fields (`_tags`, `_message`, `_exists`), the three result fields `push` fills in
    (`_sha`, `_uri`, `_ref`), and the requests it sends to the remote API.

    Each operation is first given as a function from the old state to its result and the
    new state; the `Tag` class then performs it by updating its fields in place and is
    proved to agree with that function. The properties the source relies on are lemmas
    about the functions. */
module Tags {
  import opened Wrappers
  import opened GitHub
  import TagName
  import Changelog

  /** The mutable part of a `Tag`, plus the requests sent so far. */
  datatype State = State(
    tagsMemo: Option<seq<RemoteTag>>,   // `_tags.data`: null until a listing succeeded
    messageMemo: Option<string>,        // `_message`: only the setter writes it
    existsMemo: Option<bool>,           // `_exists`
    sha: string,                        // `_sha`
    uri: string,                        // `_uri`
    ref: string,                        // `_ref`
    calls: seq<Call>)                   // the requests sent, oldest first

  /** The state the constructor leaves (main.js:16-26). */
  function Initial(): State {
    State(None, None, None, "", "", "", [])
  }

  /** `a` is what is left of `b` after dropping some elements from its front. */
  predicate IsSuffix<T(==)>(a: seq<T>, b: seq<T>) {
    |a| <= |b| && a == b[|b| - |a|..]
  }

  /** Some tag of the list has exactly this name. */
  predicate HasName(ts: seq<RemoteTag>, name: string) {
    exists k :: 0 <= k < |ts| && ts[k].name == name
  }

  /** The `message` setter (main.js:32-36): an empty value is ignored. */
  function SetMessageStep(s: State, value: string): State {
    if |value| > 0 then s.(messageMemo := Some(value)) else s
  }

  /** `getTags` (main.js:100-108): the memoised list, or one `listTags` request whose answer is
      memoised when it succeeds. A failed request leaves the memo empty and propagates. */
  function GetTagsStep(s: State, gh: Client): (Result<seq<RemoteTag>>, State) {
    if s.tagsMemo.Some? then (Success(s.tagsMemo.value), s)
    else
      var s1 := s.(calls := s.calls + [ListTags(PageSize)]);
      match gh.listTags
      case Success(ts) => (Success(ts), s1.(tagsMemo := Some(ts)))
      case Failure(e) => (Failure(e), s1)
  }

  /** `exists` (main.js:110-126): the memoised answer, or a scan of the listed tags for `name`. */
  function ExistsStep(s: State, name: string, gh: Client): (Result<bool>, State) {
    if s.existsMemo.Some? then (Success(s.existsMemo.value), s)
    else
      var (listed, s1) := GetTagsStep(s, gh);
      match listed
      case Failure(e) => (Failure(e), s1)
      case Success(ts) =>
        var found := HasName(ts, name);
        (Success(found), s1.(existsMemo := Some(found)))
  }

  /** `getMessage` (main.js:58-98): a message set earlier, or the changelog since the first listed
      tag. That tag is shifted off the memoised list itself. The function never throws: every
      error gives the fallback. The result is not memoised. */
  function MessageStep(s: State, version: string, gh: Client, template: string): (string, State) {
    if s.messageMemo.Some? then (s.messageMemo.value, s)
    else
      var (listed, s1) := GetTagsStep(s, gh);
      match listed
      case Failure(_) => (Changelog.Fallback(version), s1)
      case Success(ts) =>
        if |ts| == 0 then (Changelog.Fallback(version), s1)
        else
          (Changelog.Message(version, ts, gh.compareCommits, template),
           s1.(tagsMemo := Some(ts[1..]), calls := s1.calls + [CompareCommits(ts[0].name, Head)]))
  }

  /** `push` (main.js:128-173). Nothing is created for a tag that exists. Otherwise the tag
      object is created with the message, and its SHA is recorded before the reference is
      created, so a failing `createRef` leaves the SHA set and the URI and ref empty. */
  function PushStep(s: State, name: string, version: string, gh: Client, template: string): (Outcome, State) {
    var (ex, s1) := ExistsStep(s, name, gh);
    match ex
    case Failure(e) => (Fail(e), s1)
    case Success(found) =>
      if found then (Pass, s1)
      else
        var (msg, s2) := MessageStep(s1, version, gh, template);
        CreateStep(s2, name, msg, gh)
  }

  /** The creating half of `push` (main.js:133-169), once the message is known. */
  function CreateStep(s: State, name: string, msg: string, gh: Client): (Outcome, State) {
    var s3 := s.(calls := s.calls + [CreateTag(name, msg)]);
    match gh.createTag(name, msg)
    case Failure(e) => (Fail(e), s3)
    case Success(nt) =>
      var refName := "refs/tags/" + nt.tag;
      var s4 := s3.(sha := nt.sha, calls := s3.calls + [CreateRef(refName, nt.sha)]);
      match gh.createRef(refName, nt.sha)
      case Failure(e) => (Fail(e), s4)
      case Success(nr) => (Pass, s4.(uri := nr.url, ref := nr.ref))
  }

  /** What a state says about the listing: a memoised list is what is left of the one answer
      `listTags` gives, and while that answer is a success exactly one listing request was sent
      once the list is memoised, and none before. */
  predicate Coherent(s: State, gh: Client) {
    (s.tagsMemo.Some? ==> gh.listTags.Success? && IsSuffix(s.tagsMemo.value, gh.listTags.value))
    && (gh.listTags.Success? ==> ListingCount(s.calls) == (if s.tagsMemo.Some? then 1 else 0))
    && (s.existsMemo.Some? ==> s.tagsMemo.Some?)
  }

  lemma InitialCoherent(gh: Client)
    ensures Coherent(Initial(), gh)
  {
  }

  lemma {:induction false} ListingCountNoList(calls: seq<Call>, c: Call)
    requires !c.ListTags?
    ensures ListingCount(calls + [c]) == ListingCount(calls)
  {
    ListingCountAppend(calls, [c]);
    assert [c][1..] == [];
  }

  /** `getTags` keeps the state coherent; once the list is memoised it sends nothing and
      answers with the memo. */
  lemma GetTagsCoherent(s: State, gh: Client)
    requires Coherent(s, gh)
    ensures Coherent(GetTagsStep(s, gh).1, gh)
    ensures s.tagsMemo.Some? ==> GetTagsStep(s, gh) == (Success(s.tagsMemo.value), s)
    ensures GetTagsStep(s, gh).0.Success? ==> GetTagsStep(s, gh).1.tagsMemo == Some(GetTagsStep(s, gh).0.value)
  {
    if s.tagsMemo.None? {
      ListingCountAppend(s.calls, [ListTags(PageSize)]);
      assert [ListTags(PageSize)][1..] == [];
    }
  }

  /** Two `getTags` in a row send at most one listing request and give the same answer. */
  lemma GetTagsTwice(s: State, gh: Client)
    requires Coherent(s, gh) && gh.listTags.Success?
    ensures var (r1, s1) := GetTagsStep(s, gh);
            var (r2, s2) := GetTagsStep(s1, gh);
            r2 == r1 && s2 == s1 && ListingCount(s2.calls) == 1
  {
    GetTagsCoherent(s, gh);
  }

  /** A failed listing is not memoised: the next `getTags` sends the request again. */
  lemma GetTagsRetries(s: State, gh: Client)
    requires s.tagsMemo.None? && gh.listTags.Failure?
    ensures var (r1, s1) := GetTagsStep(s, gh);
            var (r2, s2) := GetTagsStep(s1, gh);
            r1.Failure? && r2.Failure? && s2.tagsMemo.None?
            && s2.calls == s.calls + [ListTags(PageSize), ListTags(PageSize)]
  {
  }

  lemma ExistsCoherent(s: State, name: string, gh: Client)
    requires Coherent(s, gh)
    ensures Coherent(ExistsStep(s, name, gh).1, gh)
  {
    GetTagsCoherent(s, gh);
  }

  /** The answer of `exists` is whether the list it scanned holds the name, and once given it is
      returned again without a request and without a scan. */
  lemma ExistsMeaning(s: State, name: string, gh: Client)
    requires Coherent(s, gh) && s.existsMemo.None?
    ensures var (r, s1) := ExistsStep(s, name, gh);
            r == (match GetTagsStep(s, gh).0
                  case Success(ts) => Success(HasName(ts, name))
                  case Failure(e) => Failure(e))
            && (r.Success? ==> s1.existsMemo == Some(r.value) && ExistsStep(s1, name, gh) == (r, s1))
  {
  }

  lemma MessageCoherent(s: State, version: string, gh: Client, template: string)
    requires Coherent(s, gh)
    ensures Coherent(MessageStep(s, version, gh, template).1, gh)
  {
    GetTagsCoherent(s, gh);
    var (listed, s1) := GetTagsStep(s, gh);
    if s.messageMemo.None? && listed.Success? && |listed.value| > 0 {
      var ts := listed.value;
      var all := gh.listTags.value;
      assert ts == all[|all| - |ts|..];
      assert ts[1..] == all[|all| - |ts[1..]|..];
      ListingCountNoList(s1.calls, CompareCommits(ts[0].name, Head));
    }
  }

  /** A message given to the setter is what `getMessage` returns, with no request sent; an empty
      one changes nothing. */
  lemma SetMessageWins(s: State, value: string, version: string, gh: Client, template: string)
    ensures |value| == 0 ==> SetMessageStep(s, value) == s
    ensures |value| > 0 ==>
              MessageStep(SetMessageStep(s, value), version, gh, template) == (value, SetMessageStep(s, value))
  {
  }

  /** Without a message, `getMessage` compares against the first listed tag and removes that tag
      from the memoised list; with no tags, or when the listing fails, it gives the fallback. */
  lemma MessageFromTags(s: State, version: string, gh: Client, template: string)
    requires Coherent(s, gh) && s.messageMemo.None?
    ensures var (listed, s1) := GetTagsStep(s, gh);
            var (m, s2) := MessageStep(s, version, gh, template);
            match listed
            case Failure(_) => m == Changelog.Fallback(version) && s2 == s1
            case Success(ts) =>
              if |ts| == 0 then m == Changelog.Fallback(version) && s2 == s1
              else
                s2.tagsMemo == Some(ts[1..]) && |s2.tagsMemo.value| == |ts| - 1
                && s2.calls == s1.calls + [CompareCommits(ts[0].name, Head)]
                && m == Changelog.Message(version, ts, gh.compareCommits, template)
  {
  }

  lemma PushCoherent(s: State, name: string, version: string, gh: Client, template: string)
    requires Coherent(s, gh)
    ensures Coherent(PushStep(s, name, version, gh, template).1, gh)
  {
    ExistsCoherent(s, name, gh);
    var (ex, s1) := ExistsStep(s, name, gh);
    if ex.Success? && !ex.value {
      MessageCoherent(s1, version, gh, template);
      var (msg, s2) := MessageStep(s1, version, gh, template);
      ListingCountNoList(s2.calls, CreateTag(name, msg));
      var s3 := s2.(calls := s2.calls + [CreateTag(name, msg)]);
      if gh.createTag(name, msg).Success? {
        var nt := gh.createTag(name, msg).value;
        ListingCountNoList(s3.calls, CreateRef("refs/tags/" + nt.tag, nt.sha));
      }
    }
  }

  /** The part of the trace `push` adds after the existence check. */
  lemma {:induction false} PushTrace(s: State, name: string, version: string, gh: Client, template: string)
    ensures var (ex, s1) := ExistsStep(s, name, gh);
            var (o, s5) := PushStep(s, name, version, gh, template);
            match ex
            case Failure(e) => o == Fail(e) && s5 == s1
            case Success(found) =>
              if found then o == Pass && s5 == s1
              else
                var (msg, s2) := MessageStep(s1, version, gh, template);
                |s5.calls| > |s2.calls| && s5.calls[|s2.calls|] == CreateTag(name, msg)
                && s5.calls[..|s2.calls|] == s2.calls
  {
  }

  /** A tag that exists is never created: `push` adds no create request to the trace and touches
      neither the SHA, the URI nor the ref. */
  lemma PushWhenExists(s: State, name: string, version: string, gh: Client, template: string)
    requires ExistsStep(s, name, gh).0 == Success(true)
    ensures PushStep(s, name, version, gh, template) == (Pass, ExistsStep(s, name, gh).1)
    ensures forall c :: c in PushStep(s, name, version, gh, template).1.calls ==> c in s.calls || c.ListTags?
  {
    var s1 := ExistsStep(s, name, gh).1;
    forall c | c in s1.calls ensures c in s.calls || c.ListTags? {
      if s.existsMemo.None? && s.tagsMemo.None? {
        assert s1.calls == s.calls + [ListTags(PageSize)];
      }
    }
  }

  /** A push that completes took the SHA from the created tag object and the URI and ref from
      the created reference, which names the tag under `refs/tags/`. */
  lemma PushSuccess(s: State, name: string, version: string, gh: Client, template: string)
    requires ExistsStep(s, name, gh).0 == Success(false)
    requires PushStep(s, name, version, gh, template).0 == Pass
    ensures var s1 := ExistsStep(s, name, gh).1;
            var (msg, s2) := MessageStep(s1, version, gh, template);
            var s5 := PushStep(s, name, version, gh, template).1;
            gh.createTag(name, msg).Success?
            && var nt := gh.createTag(name, msg).value;
               gh.createRef("refs/tags/" + nt.tag, nt.sha).Success?
               && var nr := gh.createRef("refs/tags/" + nt.tag, nt.sha).value;
                  s5.sha == nt.sha && s5.uri == nr.url && s5.ref == nr.ref
                  && s5.calls == s2.calls + [CreateTag(name, msg), CreateRef("refs/tags/" + nt.tag, nt.sha)]
  {
  }

  /** When `createRef` fails the error is passed on with the SHA of the created tag object already
      recorded and the URI and ref as they were: the tag object exists without a reference. */
  lemma PushRefFailure(s: State, name: string, version: string, gh: Client, template: string)
    requires ExistsStep(s, name, gh).0 == Success(false)
    requires var s1 := ExistsStep(s, name, gh).1;
             var msg := MessageStep(s1, version, gh, template).0;
             gh.createTag(name, msg).Success?
             && gh.createRef("refs/tags/" + gh.createTag(name, msg).value.tag, gh.createTag(name, msg).value.sha).Failure?
    ensures var s1 := ExistsStep(s, name, gh).1;
            var (msg, s2) := MessageStep(s1, version, gh, template);
            var nt := gh.createTag(name, msg).value;
            var (o, s5) := PushStep(s, name, version, gh, template);
            o.Fail? && s5.sha == nt.sha && s5.uri == s.uri && s5.ref == s.ref
            && CreateTag(name, msg) in s5.calls
  {
  }

  /** The first existence check of a fresh tag sends the one listing request and scans its answer. */
  lemma FirstExists(name: string, gh: Client)
    ensures ExistsStep(Initial(), name, gh)
              == match gh.listTags
                 case Failure(e) => (Failure(e), Initial().(calls := [ListTags(PageSize)]))
                 case Success(ts) =>
                   (Success(HasName(ts, name)),
                    State(Some(ts), None, Some(HasName(ts, name)), "", "", "", [ListTags(PageSize)]))
  {
    assert Initial().calls + [ListTags(PageSize)] == [ListTags(PageSize)];
  }

  /** After an existence check that found nothing, with a message set or not, `push` sends the
      creation requests with the set message, or, without one, the changelog since the first
      listed tag. */
  lemma PushAfterCheck(s: State, name: string, version: string, gh: Client, template: string)
    requires s.existsMemo == Some(false) && s.tagsMemo.Some?
    ensures var (msg, s2) := MessageStep(s, version, gh, template);
            PushStep(s, name, version, gh, template) == CreateStep(s2, name, msg, gh)
            && (s.messageMemo.Some? ==> msg == s.messageMemo.value && s2 == s)
            && (s.messageMemo.None? ==> msg == Changelog.Message(version, s.tagsMemo.value, gh.compareCommits, template))
  {
  }

  /** The requests `CreateStep` adds, and what its outcome says about them. */
  lemma CreateTrace(s: State, name: string, msg: string, gh: Client)
    ensures var (o, s5) := CreateStep(s, name, msg, gh);
            var nt := gh.createTag(name, msg);
            if nt.Failure? then o.Fail? && s5.calls == s.calls + [CreateTag(name, msg)] && s5.sha == s.sha
            else
              var cr := CreateRef("refs/tags/" + nt.value.tag, nt.value.sha);
              s5.calls == s.calls + [CreateTag(name, msg), cr] && s5.sha == nt.value.sha
              && (o.Pass? <==> gh.createRef(cr.ref, cr.sha).Success?)
  {
  }

  /** What a completed creation leaves: the trace ends with the tag-object request for `name`
      and the reference request for the tag object the API returned, and the SHA, URI and ref are
      the ones in the two responses. */
  predicate Creation(calls: seq<Call>, name: string, sha: string, uri: string, ref: string, gh: Client) {
    |calls| >= 2
    && var ct := calls[|calls| - 2];
       var cr := calls[|calls| - 1];
       ct.CreateTag? && ct.tag == name && gh.createTag(ct.tag, ct.message).Success?
       && var nt := gh.createTag(ct.tag, ct.message).value;
          cr == CreateRef("refs/tags/" + nt.tag, nt.sha) && sha == nt.sha
          && gh.createRef(cr.ref, cr.sha).Success?
          && uri == gh.createRef(cr.ref, cr.sha).value.url && ref == gh.createRef(cr.ref, cr.sha).value.ref
  }

  /** A `push` that completes after finding no tag has created one, as `Creation` says. */
  lemma PushCreates(s: State, name: string, version: string, gh: Client, template: string)
    requires ExistsStep(s, name, gh).0 == Success(false)
    requires PushStep(s, name, version, gh, template).0 == Pass
    ensures var s5 := PushStep(s, name, version, gh, template).1;
            Creation(s5.calls, name, s5.sha, s5.uri, s5.ref, gh)
  {
    PushSuccess(s, name, version, gh, template);
  }

  /** Once the tag is known not to exist, a push that passes made its creation. */
  lemma PushAfterAbsent(s: State, name: string, version: string, gh: Client, template: string)
    requires s.existsMemo == Some(false)
    ensures var (o, s5) := PushStep(s, name, version, gh, template);
            o.Pass? ==> Creation(s5.calls, name, s5.sha, s5.uri, s5.ref, gh)
  {
    if PushStep(s, name, version, gh, template).0.Pass? {
      PushCreates(s, name, version, gh, template);
    }
  }

  /** The tag, as the class of main.js:15-174. The prefix, version and postfix are never
      reassigned; the remote API is the one the module-level client talks to. */
  class Tag {
    const prefix: string
    const version: string
    const postfix: string
    const gh: Client
    var tagsMemo: Option<seq<RemoteTag>>
    var messageMemo: Option<string>
    var existsMemo: Option<bool>
    var sha: string
    var uri: string
    var ref: string
    var calls: seq<Call>

    function Snapshot(): State
      reads this
    {
      State(tagsMemo, messageMemo, existsMemo, sha, uri, ref, calls)
    }

    /** The `name` getter (main.js:28-30). */
    function Name(): string {
      TagName.Name(prefix, version, postfix)
    }

    /** The `prerelease` getter (main.js:50-52). */
    function Prerelease(): bool {
      TagName.Prerelease(version)
    }

    /** The `build` getter (main.js:54-56). */
    function Build(): bool {
      TagName.Build(version)
    }

    constructor (prefix: string, version: string, postfix: string, gh: Client)
      ensures this.prefix == prefix && this.version == version && this.postfix == postfix
      ensures this.gh == gh
      ensures Snapshot() == Initial()
    {
      this.prefix := prefix;
      this.version := version;
      this.postfix := postfix;
      this.gh := gh;
      tagsMemo := None;
      messageMemo := None;
      existsMemo := None;
      sha := "";
      uri := "";
      ref := "";
      calls := [];
    }

    method SetMessage(value: string)
      modifies this
      ensures Snapshot() == SetMessageStep(old(Snapshot()), value)
    {
      if |value| > 0 {
        messageMemo := Some(value);
      }
    }

    method GetTags() returns (r: Result<seq<RemoteTag>>)
      modifies this
      ensures (r, Snapshot()) == GetTagsStep(old(Snapshot()), gh)
    {
      if tagsMemo.Some? {
        return Success(tagsMemo.value);
      }
      calls := calls + [ListTags(PageSize)];
      r := gh.listTags;
      if r.Success? {
        tagsMemo := Some(r.value);
      }
    }

    method Exists() returns (r: Result<bool>)
      modifies this
      ensures (r, Snapshot()) == ExistsStep(old(Snapshot()), Name(), gh)
    {
      if existsMemo.Some? {
        return Success(existsMemo.value);
      }
      var current := Name();
      var listed := GetTags();
      if listed.Failure? {
        return Failure(listed.error);
      }
      var ts := listed.value;
      ghost var scanning := Snapshot();
      var i := 0;
      while i < |ts|
        invariant 0 <= i <= |ts|
        invariant forall k :: 0 <= k < i ==> ts[k].name != current
        invariant Snapshot() == scanning
      {
        if ts[i].name == current {
          existsMemo := Some(true);
          return Success(true);
        }
        i := i + 1;
      }
      existsMemo := Some(false);
      return Success(false);
    }

    method GetMessage(template: string) returns (m: string)
      modifies this
      ensures (m, Snapshot()) == MessageStep(old(Snapshot()), version, gh, template)
    {
      if messageMemo.Some? {
        return messageMemo.value;
      }
      var listed := GetTags();
      if listed.Failure? {
        return Changelog.Fallback(version);
      }
      var ts := listed.value;
      if |ts| == 0 {
        return Changelog.Fallback(version);
      }
      tagsMemo := Some(ts[1..]);
      calls := calls + [CompareCommits(ts[0].name, Head)];
      m := Changelog.Message(version, ts, gh.compareCommits, template);
    }

    method Push(template: string) returns (o: Outcome)
      modifies this
      ensures (o, Snapshot()) == PushStep(old(Snapshot()), Name(), version, gh, template)
    {
      ghost var s0 := Snapshot();
      var found := Exists();
      ghost var s1 := Snapshot();
      assert (found, s1) == ExistsStep(s0, Name(), gh);
      if found.Failure? {
        return Fail(found.error);
      }
      if found.value {
        return Pass;
      }
      var msg := GetMessage(template);
      ghost var s2 := Snapshot();
      assert (msg, s2) == MessageStep(s1, version, gh, template);
      assert PushStep(s0, Name(), version, gh, template) == CreateStep(s2, Name(), msg, gh);
      o := Create(Name(), msg);
    }

    /** The creation part of `push` (main.js:133-167): the tag object, then its reference. */
    method Create(name: string, msg: string) returns (o: Outcome)
      modifies this
      ensures (o, Snapshot()) == CreateStep(old(Snapshot()), name, msg, gh)
    {
      calls := calls + [CreateTag(name, msg)];
      var newTag := gh.createTag(name, msg);
      if newTag.Failure? {
        return Fail(newTag.error);
      }
      sha := newTag.value.sha;
      var refName := "refs/tags/" + newTag.value.tag;
      calls := calls + [CreateRef(refName, newTag.value.sha)];
      var newRef := gh.createRef(refName, newTag.value.sha);
      if newRef.Failure? {
        return Fail(newRef.error);
      }
      uri := newRef.value.url;
      ref := newRef.value.ref;
      return Pass;
    }
  }
}
