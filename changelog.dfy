/** The changelog `getMessage` builds from the commits since the most recent tag
    (main.js:58-98): the per-commit template with its four placeholders, the built-in
    numbered format, and the "Version <v>" fallback. */
module Changelog {
  import opened Wrappers
  import Text
  import opened GitHub

  /** The placeholder keywords, in the order the template passes replace them. */
  const Keys: seq<string> := ["number", "message", "author", "sha"]

  /** The length of the match of `/\{\{\s?(key)\s?\}\}/i` that starts at the front of `s`, if any.
      Taking a whitespace whenever one is there is what the greedy, backtracking `\s?` does,
      because neither a keyword nor `}` starts with whitespace. */
  function PlaceholderLength(s: string, key: string): (r: Option<nat>)
    ensures r.Some? ==> 4 + |key| <= r.value <= |s|
    ensures r.Some? ==> s[0] == '{' && s[1] == '{' && s[r.value - 2] == '}' && s[r.value - 1] == '}'
  {
    if |s| < 2 || s[0] != '{' || s[1] != '{' then None
    else
      var a := if 2 < |s| && Text.IsSpace(s[2]) then 3 else 2;
      var b := a + |key|;
      if b > |s| || !Text.FoldEq(s[a..b], key) then None
      else
        var c := if b < |s| && Text.IsSpace(s[b]) then b + 1 else b;
        if c + 2 <= |s| && s[c] == '}' && s[c + 1] == '}' then Some(c + 2) else None
  }

  /** `s.replace(/\{\{\s?(key)\s?\}\}/gi, value)`: every match, left to right and without overlap,
      becomes `value`, which is inserted literally and not scanned again. */
  function ReplaceAll(s: string, key: string, value: string): string
    decreases |s|
  {
    if s == [] then []
    else match PlaceholderLength(s, key)
      case Some(n) => value + ReplaceAll(s[n..], key, value)
      case None => [s[0]] + ReplaceAll(s[1..], key, value)
  }

  /** The author expression of main.js:80 and 85-89: the login, or nothing. On `author: null`
      the property lookup throws. */
  function AuthorLogin(a: AuthorField): Result<string> {
    match a
    case Missing => Success("")
    case Null => Failure("Cannot read properties of null (reading 'hasOwnProperty')")
    case Present(login) => Success(if login.Some? then login.value else "")
  }

  /** Entry `i` rendered with a (trimmed, non-empty) template (main.js:77-82). */
  function TemplateEntry(template: string, c: Commit, i: nat): Result<string> {
    var login :- AuthorLogin(c.author);
    var filled := ReplaceAll(ReplaceAll(ReplaceAll(ReplaceAll(template,
                    "number", Text.NatToString(i + 1)),
                    "message", c.message),
                    "author", login),
                    "sha", c.sha);
    Success(Text.Trim(filled) + "\n")
  }

  /** Entry `i` in the built-in format (main.js:84-90). */
  function DefaultEntry(c: Commit, i: nat): Result<string> {
    var login :- AuthorLogin(c.author);
    var byline := if c.author.Present? && c.author.login.Some? then " (" + login + ")" else "";
    Success((if i == 0 then "\n" else "") + Text.NatToString(i + 1) + ") " + c.message + byline
            + "\n(SHA: " + c.sha + ")\n")
  }

  function Entry(template: string, c: Commit, i: nat): Result<string> {
    if |template| > 0 then TemplateEntry(template, c, i) else DefaultEntry(c, i)
  }

  /** The `map` over the commits, numbering them from `first`; the first throw aborts it. */
  function Entries(commits: seq<Commit>, template: string, first: nat): Result<seq<string>>
    decreases |commits|
  {
    if commits == [] then Success([])
    else
      var e :- Entry(template, commits[0], first);
      var rest :- Entries(commits[1..], template, first + 1);
      Success([e] + rest)
  }

  /** The entries joined with a line feed (main.js:73-93). */
  function Render(commits: seq<Commit>, template: string): Result<string> {
    var entries :- Entries(commits, template, 0);
    Success(Text.Join(entries, "\n"))
  }

  /** The message used when there is nothing to summarise or anything failed (main.js:67, 96). */
  function Fallback(version: string): string {
    "Version " + version
  }

  /** What getMessage returns once the tag list `tags` is known and no message was set:
      compare against the first listed tag and render, or fall back. */
  function Message(version: string, tags: seq<RemoteTag>,
                     compare: string -> Result<seq<Commit>>, template: string): string
  {
    if |tags| == 0 then Fallback(version)
    else match compare(tags[0].name)
      case Failure(_) => Fallback(version)
      case Success(commits) =>
        match Render(commits, Text.Trim(template))
        case Success(text) => text
        case Failure(_) => Fallback(version)
  }

  // ---- Meaning of the rendering ----

  lemma EntrySucceeds(template: string, c: Commit, i: nat)
    ensures Entry(template, c, i).Success? <==> !c.author.Null?
  {
  }

  /** The map fails exactly when some commit has a null author. */
  lemma {:induction false} EntriesSucceed(commits: seq<Commit>, template: string, first: nat)
    ensures Entries(commits, template, first).Success? <==>
              forall k :: 0 <= k < |commits| ==> !commits[k].author.Null?
    decreases |commits|
  {
    if commits != [] {
      EntrySucceeds(template, commits[0], first);
      EntriesSucceed(commits[1..], template, first + 1);
      assert forall k :: 1 <= k < |commits| ==> commits[k] == commits[1..][k - 1];
    }
  }

  /** A map that succeeds renders every commit, in order, numbered from `first`. */
  lemma EntriesMeaning(commits: seq<Commit>, template: string, first: nat)
    ensures Entries(commits, template, first).Success? ==>
              var es := Entries(commits, template, first).value;
              |es| == |commits| &&
              forall k :: 0 <= k < |commits| ==> Entry(template, commits[k], first + k) == Success(es[k])
  {
    if Entries(commits, template, first).Success? {
      EntriesLength(commits, template, first);
      forall k | 0 <= k < |commits|
        ensures Entry(template, commits[k], first + k) == Success(Entries(commits, template, first).value[k])
      {
        EntriesAt(commits, template, first, k);
      }
    }
  }

  /** One step of the map: the first entry, then the rest. */
  lemma EntriesCons(commits: seq<Commit>, template: string, first: nat)
    requires commits != [] && Entries(commits, template, first).Success?
    ensures Entry(template, commits[0], first).Success? && Entries(commits[1..], template, first + 1).Success?
    ensures Entries(commits, template, first).value
            == [Entry(template, commits[0], first).value] + Entries(commits[1..], template, first + 1).value
  {
  }

  lemma {:induction false} EntriesLength(commits: seq<Commit>, template: string, first: nat)
    requires Entries(commits, template, first).Success?
    ensures |Entries(commits, template, first).value| == |commits|
    decreases |commits|
  {
    if commits != [] {
      EntriesCons(commits, template, first);
      EntriesLength(commits[1..], template, first + 1);
    }
  }

  lemma {:induction false} EntriesAt(commits: seq<Commit>, template: string, first: nat, k: nat)
    requires k < |commits| && Entries(commits, template, first).Success?
    ensures k < |Entries(commits, template, first).value|
            && Entry(template, commits[k], first + k) == Success(Entries(commits, template, first).value[k])
    decreases k
  {
    EntriesCons(commits, template, first);
    if k > 0 {
      EntriesAt(commits[1..], template, first + 1, k - 1);
      assert commits[k] == commits[1..][k - 1];
      assert first + k == (first + 1) + (k - 1);
    }
  }

  /** An author recorded as `null` makes the whole changelog fall back to "Version <v>". */
  lemma NullAuthorFallsBack(version: string, tags: seq<RemoteTag>,
                            compare: string -> Result<seq<Commit>>, template: string, k: nat)
    requires |tags| > 0 && compare(tags[0].name).Success?
    requires k < |compare(tags[0].name).value| && compare(tags[0].name).value[k].author.Null?
    ensures Message(version, tags, compare, template) == Fallback(version)
  {
    EntriesSucceed(compare(tags[0].name).value, Text.Trim(template), 0);
  }

  lemma FallbackCases(version: string, tags: seq<RemoteTag>,
                      compare: string -> Result<seq<Commit>>, template: string)
    ensures |tags| == 0 ==> Message(version, tags, compare, template) == Fallback(version)
    ensures |tags| > 0 && compare(tags[0].name).Failure? ==>
              Message(version, tags, compare, template) == Fallback(version)
  {
  }

  // ---- Meaning of the placeholder passes ----

  /** A spelling of the placeholder for `key` between `{{` and `}}`: at most one whitespace,
      the keyword in any case, at most one whitespace. */
  predicate Spelling(key: string, w1: string, spelled: string, w2: string) {
    |w1| <= 1 && Text.AllSpace(w1) && |w2| <= 1 && Text.AllSpace(w2) && Text.FoldEq(spelled, key)
  }

  /** Every spelling the pattern accepts: `{{`, at most one whitespace, the keyword in any case,
      at most one whitespace, `}}`. Whatever follows is left for the next step. */
  lemma PlaceholderSpellings(key: string, w1: string, spelled: string, w2: string, rest: string)
    requires key in Keys && Spelling(key, w1, spelled, w2)
    ensures PlaceholderLength("{{" + w1 + spelled + w2 + "}}" + rest, key)
              == Some(4 + |w1| + |key| + |w2|)
  {
    var s := "{{" + w1 + spelled + w2 + "}}" + rest;
    var a := 2 + |w1|;
    var b := a + |key|;
    assert s[..2] == "{{";
    assert s[a..b] == spelled;
    assert |w1| == 0 ==> !Text.IsSpace(s[2]) by {
      if |w1| == 0 {
        assert s[2] == spelled[0];
        assert Text.LowerChar(spelled[0]) == key[0];
      }
    }
    assert |w1| == 1 ==> s[2] == w1[0];
    assert |w2| == 1 ==> s[b] == w2[0];
    assert |w2| == 0 ==> s[b] == '}';
    assert s[b + |w2|] == '}' && s[b + |w2| + 1] == '}';
  }

  /** Conversely, every match is such a spelling: `{{`, at most one whitespace, the keyword in
      any case, at most one whitespace and `}}`, and nothing more. */
  lemma PlaceholderShape(s: string, key: string)
    requires PlaceholderLength(s, key).Some?
    ensures exists w1, spelled, w2 :: Spelling(key, w1, spelled, w2)
              && s[..PlaceholderLength(s, key).value] == "{{" + w1 + spelled + w2 + "}}"
  {
    var n := PlaceholderLength(s, key).value;
    var a := if 2 < |s| && Text.IsSpace(s[2]) then 3 else 2;
    var b := a + |key|;
    var c := if b < |s| && Text.IsSpace(s[b]) then b + 1 else b;
    assert n == c + 2 && Text.FoldEq(s[a..b], key);
    SpelledSlices(s, key, a, b, c);
  }

  /** Cut at the ends of the optional whitespaces and of the keyword, a match is a spelling. */
  lemma SpelledSlices(s: string, key: string, a: nat, b: nat, c: nat)
    requires 2 <= a <= 3 && b == a + |key| && b <= c <= b + 1 && c + 2 <= |s|
    requires s[0] == '{' && s[1] == '{' && s[c] == '}' && s[c + 1] == '}'
    requires a == 3 ==> Text.IsSpace(s[2])
    requires c == b + 1 ==> Text.IsSpace(s[b])
    requires Text.FoldEq(s[a..b], key)
    ensures exists w1, spelled, w2 :: Spelling(key, w1, spelled, w2)
              && s[..c + 2] == "{{" + w1 + spelled + w2 + "}}"
  {
    var w1, spelled, w2 := s[2..a], s[a..b], s[b..c];
    assert a == 3 ==> w1 == [s[2]];
    assert c == b + 1 ==> w2 == [s[b]];
    assert Spelling(key, w1, spelled, w2);
    var open, close := s[..2], s[c..c + 2];
    assert open[0] == '{' && open[1] == '{';
    assert close[0] == '}' && close[1] == '}';
    assert open == "{{" && close == "}}";
    assert s[..c + 2] == s[..2] + w1 + spelled + w2 + s[c..c + 2];
  }

  lemma PlaceholderAcceptsPlain()
    ensures PlaceholderLength("{{number}}", "number") == Some(10)
  {
    assert "number" in Keys;
    KeyFacts("number");
    PlaceholderSpellings("number", "", "number", "", "");
    assert "{{" + "" + "number" + "" + "}}" + "" == "{{number}}";
  }

  lemma PlaceholderAcceptsSpaced()
    ensures PlaceholderLength("{{ NUMBER }}:", "number") == Some(12)
  {
    assert "number" in Keys;
    assert Text.FoldEq("NUMBER", "number");
    PlaceholderSpellings("number", " ", "NUMBER", " ", ":");
    assert "{{" + " " + "NUMBER" + " " + "}}" + ":" == "{{ NUMBER }}:";
  }

  lemma PlaceholderAcceptsTab()
    ensures PlaceholderLength("{{Sha\t}}", "sha") == Some(8)
  {
    assert "sha" in Keys;
    assert Text.FoldEq("Sha", "sha");
    PlaceholderSpellings("sha", "", "Sha", "\t", "");
    assert "{{" + "" + "Sha" + "\t" + "}}" + "" == "{{Sha\t}}";
  }

  lemma PlaceholderRejects()
    ensures PlaceholderLength("{{  number}}", "number") == None
    ensures PlaceholderLength("{{numbers}}", "number") == None
    ensures PlaceholderLength("{ {sha}}", "sha") == None
  {
    var s := "{{  number}}";
    assert s[3..9][0] == ' ';
    assert !Text.FoldEq(s[3..9], "number");
    var u := "{{numbers}}";
    assert u[8] == 's' && u[2..8] == "number";
  }

  /** Text with no `{` cannot hold the start of a placeholder: it is copied as it is. */
  lemma {:induction false} ReplaceSkipsBraceless(s: string, t: string, key: string, value: string)
    requires '{' !in s
    ensures ReplaceAll(s + t, key, value) == s + ReplaceAll(t, key, value)
    decreases |s|
  {
    if s == [] {
      assert s + t == t;
    } else {
      var u := s + t;
      assert u[0] == s[0];
      assert PlaceholderLength(u, key) == None;
      assert u[1..] == s[1..] + t;
      ReplaceSkipsBraceless(s[1..], t, key, value);
    }
  }

  lemma KeyFacts(key: string)
    requires key in Keys
    ensures |key| > 0 && !Text.IsSpace(key[0]) && key[0] != '{' && key[0] != '}'
    ensures '{' !in key
    ensures Text.FoldEq(key, key)
  {
  }

  /** A placeholder for this pass's keyword, however it is spelled, becomes the value. */
  lemma ReplaceOwnHole(key: string, w1: string, spelled: string, w2: string, t: string, value: string)
    requires key in Keys && Spelling(key, w1, spelled, w2)
    ensures ReplaceAll("{{" + w1 + spelled + w2 + "}}" + t, key, value) == value + ReplaceAll(t, key, value)
  {
    var s := "{{" + w1 + spelled + w2 + "}}" + t;
    PlaceholderSpellings(key, w1, spelled, w2, t);
    assert s[4 + |w1| + |key| + |w2|..] == t;
  }

  /** A spelled keyword starts with the keyword's letter in some case and holds no brace. */
  lemma SpelledFacts(key: string, spelled: string)
    requires key in Keys && Text.FoldEq(spelled, key)
    ensures |spelled| > 0 && !Text.IsSpace(spelled[0]) && Text.LowerChar(spelled[0]) == key[0]
    ensures '{' !in spelled
  {
    KeyFacts(key);
    forall k | 0 <= k < |spelled| ensures spelled[k] != '{' {
      assert Text.LowerChar(spelled[k]) == key[k];
    }
  }

  lemma DistinctKeyHeads(a: string, b: string)
    requires a in Keys && b in Keys && a != b
    ensures a[0] != b[0] && Text.LowerChar(a[0]) == a[0]
  {
  }

  /** A placeholder for another keyword, however it is spelled, survives this pass unchanged. */
  lemma ReplaceOtherHole(other: string, w1: string, spelled: string, w2: string,
                         key: string, t: string, value: string)
    requires other in Keys && key in Keys && other != key && Spelling(other, w1, spelled, w2)
    ensures ReplaceAll("{{" + w1 + spelled + w2 + "}}" + t, key, value)
              == "{{" + w1 + spelled + w2 + "}}" + ReplaceAll(t, key, value)
  {
    SpelledBody(other, w1, spelled, w2, key);
    var body := w1 + spelled + w2;
    var h := "{{" + w1 + spelled + w2 + "}}";
    assert h == "{{" + body + "}}";
    ReplaceForeignHole(body, key, t, value);
  }

  /** What the spelled text between the braces offers another keyword's pass: no brace, and
      past an optional whitespace a letter that keyword does not start with. */
  lemma SpelledBody(other: string, w1: string, spelled: string, w2: string, key: string)
    requires other in Keys && key in Keys && other != key && Spelling(other, w1, spelled, w2)
    ensures var body := w1 + spelled + w2;
            |body| > 0 && '{' !in body
            && var a := if Text.IsSpace(body[0]) then 1 else 0;
               a < |body| && Text.LowerChar(body[a]) != key[0]
  {
    KeyFacts(key);
    DistinctKeyHeads(other, key);
    SpelledFacts(other, spelled);
    BraceFree(w1, spelled, w2);
    var body := w1 + spelled + w2;
    if |w1| == 1 {
      assert body[0] == w1[0] && body[1] == spelled[0];
    } else {
      assert body[0] == spelled[0];
    }
  }

  lemma BraceFree(w1: string, spelled: string, w2: string)
    requires Text.AllSpace(w1) && Text.AllSpace(w2) && '{' !in spelled
    ensures '{' !in w1 + spelled + w2
  {
    var body := w1 + spelled + w2;
    forall k | 0 <= k < |body| ensures body[k] != '{' {
      if k < |w1| {
        assert body[k] == w1[k];
      } else if k < |w1| + |spelled| {
        assert body[k] == spelled[k - |w1|];
      } else {
        assert body[k] == w2[k - |w1| - |spelled|];
      }
    }
  }

  /** The same for any brace-free text after `{{` whose first letter past an optional
      whitespace is one the keyword cannot start with. */
  lemma ReplaceForeignHole(body: string, key: string, t: string, value: string)
    requires |body| > 0 && |key| > 0 && '{' !in body
    requires var a := if Text.IsSpace(body[0]) then 1 else 0;
             a < |body| && Text.LowerChar(body[a]) != key[0]
    ensures ReplaceAll("{{" + body + "}}" + t, key, value)
              == "{{" + body + "}}" + ReplaceAll(t, key, value)
  {
    var s := "{{" + body + "}}" + t;
    assert s[2] == body[0];
    assert Text.IsSpace(body[0]) ==> s[3] == body[1];
    NoForeignPlaceholder(s, key);
    ReplaceStep(s, key, value);
    DropBrace(body, t);
    SingleBraceHole(body, key, t, value);
  }

  lemma DropBrace(body: string, t: string)
    ensures ("{{" + body + "}}" + t)[1..] == "{" + body + "}}" + t
  {
  }

  /** After the first brace the rest of the placeholder is plain text to `key`'s pass. */
  lemma SingleBraceHole(other: string, key: string, t: string, value: string)
    requires |other| > 0 && other[0] != '{' && '{' !in other
    ensures ReplaceAll("{" + other + "}}" + t, key, value) == "{" + other + "}}" + ReplaceAll(t, key, value)
  {
    var s2 := other + "}}";
    var s1 := "{" + s2 + t;
    assert s1 == "{" + other + "}}" + t;
    assert s1[1] == other[0];
    ReplaceStep(s1, key, value);
    assert s1[1..] == s2 + t;
    assert '{' !in s2;
    ReplaceSkipsBraceless(s2, t, key, value);
    assert "{" + other + "}}" == [s1[0]] + s2;
  }

  /** Where no placeholder starts, the first character is kept and the rest is scanned. */
  lemma ReplaceStep(s: string, key: string, value: string)
    requires s != [] && PlaceholderLength(s, key) == None
    ensures ReplaceAll(s, key, value) == [s[0]] + ReplaceAll(s[1..], key, value)
  {
  }

  /** No placeholder for `key` starts where the character after `{{` and an optional
      whitespace is not the keyword's first letter in any case. */
  lemma NoForeignPlaceholder(s: string, key: string)
    requires |s| > 2 && |key| > 0
    requires var a := if Text.IsSpace(s[2]) then 3 else 2;
             a < |s| && Text.LowerChar(s[a]) != key[0]
    ensures PlaceholderLength(s, key) == None
  {
    var a := if Text.IsSpace(s[2]) then 3 else 2;
    if a + |key| <= |s| {
      assert s[a..a + |key|][0] == s[a];
    }
  }

  /** A template as literal text and placeholders; a placeholder keeps the way it is written:
      the whitespace after `{{`, the keyword in the case it is written in, and the whitespace
      before `}}`. */
  datatype Piece = Lit(text: string) | Hole(key: string, w1: string, spelled: string, w2: string)

  /** A placeholder written `{{key}}`. */
  function Plain(key: string): (p: Piece)
    ensures p.Hole? && p.key == key
  {
    Hole(key, "", key, "")
  }

  /** The template text. */
  function SpellPiece(p: Piece): string {
    match p
    case Lit(t) => t
    case Hole(_, w1, spelled, w2) => "{{" + w1 + spelled + w2 + "}}"
  }

  function Spell(ps: seq<Piece>): string
    decreases |ps|
  {
    if ps == [] then "" else SpellPiece(ps[0]) + Spell(ps[1..])
  }

  lemma SpellCons(p: Piece, rest: seq<Piece>)
    ensures Spell([p] + rest) == SpellPiece(p) + Spell(rest)
  {
    assert ([p] + rest)[1..] == rest;
  }

  /** Literal text holds no `{`; a placeholder names one of the four keywords and is spelled
      the way the pattern accepts. */
  predicate PieceOk(p: Piece) {
    match p
    case Lit(t) => '{' !in t
    case Hole(k, w1, spelled, w2) => k in Keys && Spelling(k, w1, spelled, w2)
  }

  predicate WellFormed(ps: seq<Piece>) {
    forall k :: 0 <= k < |ps| ==> PieceOk(ps[k])
  }

  /** A placeholder of one keyword, in any spelling, filled in with a value. */
  function FillPiece(p: Piece, key: string, value: string): Piece {
    if p.Hole? && p.key == key then Lit(value) else p
  }

  /** The placeholders of one keyword filled in with a value, all else kept. */
  function Fill(ps: seq<Piece>, key: string, value: string): (r: seq<Piece>)
    ensures |r| == |ps|
    ensures forall k :: 0 <= k < |ps| ==> r[k] == FillPiece(ps[k], key, value)
  {
    seq(|ps|, k requires 0 <= k < |ps| => FillPiece(ps[k], key, value))
  }

  /** The intended reading of a template: every placeholder stands for its value. */
  function Expand(ps: seq<Piece>, number: string, message: string, author: string, sha: string): string
    decreases |ps|
  {
    if ps == [] then ""
    else
      ExpandPiece(ps[0], number, message, author, sha) + Expand(ps[1..], number, message, author, sha)
  }

  function ExpandPiece(p: Piece, number: string, message: string, author: string, sha: string): string {
    match p
    case Lit(t) => t
    case Hole(k, _, _, _) =>
      if k == "number" then number else if k == "message" then message
      else if k == "author" then author else if k == "sha" then sha
      else SpellPiece(p)
  }

  lemma ExpandCons(p: Piece, rest: seq<Piece>, number: string, message: string, author: string, sha: string)
    ensures Expand([p] + rest, number, message, author, sha)
              == ExpandPiece(p, number, message, author, sha) + Expand(rest, number, message, author, sha)
  {
    assert ([p] + rest)[1..] == rest;
  }

  /** One pass replaces exactly the placeholders of its keyword. */
  lemma {:induction false} ReplacePass(ps: seq<Piece>, key: string, value: string)
    requires WellFormed(ps) && key in Keys
    ensures ReplaceAll(Spell(ps), key, value) == Spell(Fill(ps, key, value))
    decreases |ps|
  {
    if ps == [] {
      assert Fill(ps, key, value) == [];
    } else {
      var tail := ps[1..];
      assert WellFormed(tail) by {
        forall k | 0 <= k < |tail| ensures PieceOk(tail[k]) {
          assert tail[k] == ps[k + 1];
        }
      }
      ReplacePass(tail, key, value);
      var f := Fill(ps, key, value);
      assert f[1..] == Fill(tail, key, value);
      assert Spell(ps) == SpellPiece(ps[0]) + Spell(tail);
      assert Spell(f) == SpellPiece(f[0]) + Spell(f[1..]);
      match ps[0]
      case Lit(t) =>
        assert '{' !in t;
        ReplaceSkipsBraceless(t, Spell(tail), key, value);
      case Hole(k, w1, spelled, w2) =>
        if k == key {
          ReplaceOwnHole(key, w1, spelled, w2, Spell(tail), value);
        } else {
          ReplaceOtherHole(k, w1, spelled, w2, key, Spell(tail), value);
        }
    }
  }

  lemma FillKeepsWellFormed(ps: seq<Piece>, key: string, value: string)
    requires WellFormed(ps) && '{' !in value
    ensures WellFormed(Fill(ps, key, value))
  {
  }

  /** Once all four keywords are filled in, the spelled template is the expansion. */
  lemma {:induction false} SpellFilled(ps: seq<Piece>, number: string, message: string, author: string, sha: string)
    requires WellFormed(ps)
    ensures Spell(Fill(Fill(Fill(Fill(ps, "number", number), "message", message), "author", author), "sha", sha))
              == Expand(ps, number, message, author, sha)
    decreases |ps|
  {
    var f := Fill(Fill(Fill(Fill(ps, "number", number), "message", message), "author", author), "sha", sha);
    if ps != [] {
      var tail := ps[1..];
      assert WellFormed(tail) by {
        forall k | 0 <= k < |tail| ensures PieceOk(tail[k]) {
          assert tail[k] == ps[k + 1];
        }
      }
      SpellFilled(tail, number, message, author, sha);
      assert f[1..] == Fill(Fill(Fill(Fill(tail, "number", number), "message", message), "author", author), "sha", sha);
      assert f[0] == FillPiece(FillPiece(FillPiece(FillPiece(ps[0], "number", number), "message", message),
                                         "author", author), "sha", sha);
      FilledPiece(ps[0], number, message, author, sha);
    }
  }

  /** One piece after the four passes reads as its expansion. */
  lemma FilledPiece(p: Piece, number: string, message: string, author: string, sha: string)
    requires PieceOk(p)
    ensures SpellPiece(FillPiece(FillPiece(FillPiece(FillPiece(p, "number", number), "message", message),
                                 "author", author), "sha", sha))
              == ExpandPiece(p, number, message, author, sha)
  {
  }

  /** Rendering a template whose literal text and values hold no `{` replaces every placeholder
      by its value: commit `i` gets the number `i + 1`, its message, the author's login or
      nothing, and its SHA; the result is trimmed and ends with a line feed. */
  lemma TemplateExpansion(ps: seq<Piece>, c: Commit, i: nat)
    requires WellFormed(ps)
    requires '{' !in c.message && '$' !in c.message && '{' !in c.sha && AuthorLogin(c.author).Success?
    requires '{' !in AuthorLogin(c.author).value
    ensures TemplateEntry(Spell(ps), c, i)
              == Success(Text.Trim(Expand(ps, Text.NatToString(i + 1), c.message,
                                          AuthorLogin(c.author).value, c.sha)) + "\n")
  {
    var number := Text.NatToString(i + 1);
    var login := AuthorLogin(c.author).value;
    assert '{' !in number by {
      forall k | 0 <= k < |number| ensures number[k] != '{' {
        assert Text.IsDigit(number[k]);
      }
    }
    var p1 := Fill(ps, "number", number);
    var p2 := Fill(p1, "message", c.message);
    var p3 := Fill(p2, "author", login);
    var p4 := Fill(p3, "sha", c.sha);
    ReplacePass(ps, "number", number);
    FillKeepsWellFormed(ps, "number", number);
    ReplacePass(p1, "message", c.message);
    FillKeepsWellFormed(p1, "message", c.message);
    ReplacePass(p2, "author", login);
    FillKeepsWellFormed(p2, "author", login);
    ReplacePass(p3, "sha", c.sha);
    var filled := ReplaceAll(ReplaceAll(ReplaceAll(ReplaceAll(Spell(ps),
                    "number", number), "message", c.message), "author", login), "sha", c.sha);
    assert filled == Spell(p4);
    assert TemplateEntry(Spell(ps), c, i) == Success(Text.Trim(filled) + "\n");
    SpellFilled(ps, number, c.message, login, c.sha);
  }

  /** A placeholder written `{{key}}` becomes the value of its own pass... */
  lemma PlainOwnPass(key: string, value: string)
    requires key in Keys
    ensures ReplaceAll("{{" + key + "}}", key, value) == value
  {
    KeyFacts(key);
    ReplaceOwnHole(key, "", key, "", "", value);
    assert "{{" + "" + key + "" + "}}" + "" == "{{" + key + "}}";
    assert value + ReplaceAll("", key, value) == value;
  }

  /** ...and is left alone by another keyword's pass. */
  lemma PlainOtherPass(other: string, key: string, value: string)
    requires other in Keys && key in Keys && other != key
    ensures ReplaceAll("{{" + other + "}}", key, value) == "{{" + other + "}}"
  {
    KeyFacts(other);
    ReplaceOtherHole(other, "", other, "", key, "", value);
    assert "{{" + "" + other + "" + "}}" + "" == "{{" + other + "}}";
    assert "{{" + other + "}}" + ReplaceAll("", key, value) == "{{" + other + "}}";
  }

  /** The passes run one after the other over the text so far, so a commit message that itself
      holds a placeholder for a later keyword has it filled: with the template `{{message}}`,
      the message `{{sha}}` renders as the commit's SHA. */
  lemma MessagePlaceholderFilled(c: Commit, i: nat)
    requires c.message == "{{sha}}" && AuthorLogin(c.author).Success?
    ensures TemplateEntry("{{message}}", c, i) == Success(Text.Trim(c.sha) + "\n")
  {
    var login := AuthorLogin(c.author).value;
    assert "{{message}}" == "{{" + "message" + "}}";
    assert "{{sha}}" == "{{" + "sha" + "}}";
    PlainOtherPass("message", "number", Text.NatToString(i + 1));
    PlainOwnPass("message", "{{sha}}");
    PlainOtherPass("sha", "author", login);
    PlainOwnPass("sha", c.sha);
  }

  // ---- Two commits, rendered both ways ----

  lemma RenderTwo(template: string, a: Commit, b: Commit, ea: string, eb: string)
    requires Entry(template, a, 0) == Success(ea) && Entry(template, b, 1) == Success(eb)
    ensures Render([a, b], template) == Success(ea + "\n" + eb)
  {
    assert [a, b][1..] == [b];
    assert [b][1..] == [];
    assert Entries([], template, 2) == Success([]);
    assert [eb] + [] == [eb];
    assert Entries([b], template, 1) == Success([eb]);
    assert [ea] + [eb] == [ea, eb];
    assert Entries([a, b], template, 0) == Success([ea, eb]);
    assert [ea, eb][1..] == [eb];
    assert Text.Join([ea, eb], "\n") == ea + "\n" + eb;
  }

  /** The example template as pieces. */
  function ExamplePieces(): seq<Piece> {
    [Plain("number")] + ([Lit(": ")] + ([Plain("message")] + ([Lit(" (")] + ([Plain("author")] + ([Lit(")")] + [])))))
  }

  lemma ExampleSpelled()
    ensures Spell(ExamplePieces()) == "{{number}}: {{message}} ({{author}})"
    ensures WellFormed(ExamplePieces())
  {
    ExampleSpelledText();
    ExampleWellFormed();
  }

  lemma ExampleSpelledText()
    ensures Spell(ExamplePieces()) == "{{number}}: {{message}} ({{author}})"
  {
    SpellCons(Lit(")"), []);
    SpellCons(Plain("author"), [Lit(")")] + []);
    SpellCons(Lit(" ("), [Plain("author")] + ([Lit(")")] + []));
    SpellCons(Plain("message"), [Lit(" (")] + ([Plain("author")] + ([Lit(")")] + [])));
    SpellCons(Lit(": "), [Plain("message")] + ([Lit(" (")] + ([Plain("author")] + ([Lit(")")] + []))));
    SpellCons(Plain("number"), [Lit(": ")] + ([Plain("message")] + ([Lit(" (")] + ([Plain("author")] + ([Lit(")")] + [])))));
    ExampleTemplateText();
  }

  lemma ExampleTemplateText()
    ensures "{{" + "" + "number" + "" + "}}" + (": " + ("{{" + "" + "message" + "" + "}}"
              + (" (" + ("{{" + "" + "author" + "" + "}}" + (")" + "")))))
              == "{{number}}: {{message}} ({{author}})"
  {
  }

  lemma ExampleExpanded(number: string, message: string, author: string, sha: string)
    ensures Expand(ExamplePieces(), number, message, author, sha)
              == number + ": " + message + " (" + author + ")"
  {
    ExpandCons(Lit(")"), [], number, message, author, sha);
    ExpandCons(Plain("author"), [Lit(")")] + [], number, message, author, sha);
    ExpandCons(Lit(" ("), [Plain("author")] + ([Lit(")")] + []), number, message, author, sha);
    ExpandCons(Plain("message"), [Lit(" (")] + ([Plain("author")] + ([Lit(")")] + [])), number, message, author, sha);
    ExpandCons(Lit(": "), [Plain("message")] + ([Lit(" (")] + ([Plain("author")] + ([Lit(")")] + []))), number, message, author, sha);
    ExpandCons(Plain("number"), [Lit(": ")] + ([Plain("message")] + ([Lit(" (")] + ([Plain("author")] + ([Lit(")")] + [])))), number, message, author, sha);
    assert number + (": " + (message + (" (" + (author + (")" + ""))))) == number + ": " + message + " (" + author + ")";
  }

  /** The example template is not empty, so the template branch renders it. */
  lemma ExampleNotEmpty()
    ensures |Spell(ExamplePieces())| > 0
  {
    ExampleSpelled();
  }

  /** Every piece of the example template is a known placeholder or text without `{`. */
  lemma ExampleWellFormed()
    ensures WellFormed(ExamplePieces())
  {
    var ps := ExamplePieces();
    assert ps == [Plain("number"), Lit(": "), Plain("message"), Lit(" ("), Plain("author"), Lit(")")];
    KeyFacts("number");
    KeyFacts("message");
    KeyFacts("author");
  }

  lemma ExampleFill(c: Commit, i: nat, login: string)
    requires '{' !in c.message && '$' !in c.message && '{' !in c.sha && '{' !in login
    requires AuthorLogin(c.author) == Success(login)
    ensures TemplateEntry(Spell(ExamplePieces()), c, i)
              == Success(Text.Trim(Text.NatToString(i + 1) + ": " + c.message + " (" + login + ")") + "\n")
  {
    ExampleWellFormed();
    TemplateExpansion(ExamplePieces(), c, i);
    ExampleExpanded(Text.NatToString(i + 1), c.message, login, c.sha);
  }

  /** The filled example line starts with a digit and ends with `)`, so trimming keeps it. */
  lemma ExampleTemplateEntry(c: Commit, i: nat, login: string)
    requires '{' !in c.message && '$' !in c.message && '{' !in c.sha && '{' !in login
    requires AuthorLogin(c.author) == Success(login)
    ensures TemplateEntry(Spell(ExamplePieces()), c, i)
              == Success(Text.NatToString(i + 1) + ": " + c.message + " (" + login + ")" + "\n")
  {
    ExampleFill(c, i, login);
    var e := Text.NatToString(i + 1) + ": " + c.message + " (" + login + ")";
    assert Text.IsDigit(e[0]);
    assert e[|e| - 1] == ')';
    Text.TrimOfTrimmed(e);
  }

  /** Any commit whose message, SHA and login hold no `{` fills the example template with
      its number, message and login, in that order. */
  lemma ExampleEntry(c: Commit, i: nat, login: string)
    requires '{' !in c.message && '$' !in c.message && '{' !in c.sha && '{' !in login
    requires AuthorLogin(c.author) == Success(login)
    ensures Entry(Spell(ExamplePieces()), c, i)
              == Success(Text.NatToString(i + 1) + ": " + c.message + " (" + login + ")" + "\n")
  {
    ExampleTemplateEntry(c, i, login);
    ExampleNotEmpty();
  }

  /** Without a template: a leading empty line, then `<n>) <message> (<login>)` and the SHA on
      its own line; a commit without an author gets no parentheses. */
  lemma DefaultExample(c1: Commit, c2: Commit, login: string)
    requires c1.author == Present(Some(login)) && c2.author == Missing
    ensures Render([c1, c2], "")
              == Success(("\n1) " + c1.message + " (" + login + ")\n(SHA: " + c1.sha + ")\n")
                         + "\n"
                         + ("2) " + c2.message + "\n(SHA: " + c2.sha + ")\n"))
  {
    DefaultFirstEntry(c1, login);
    DefaultSecondEntry(c2);
    RenderTwo("", c1, c2, "\n1) " + c1.message + " (" + login + ")\n(SHA: " + c1.sha + ")\n",
              "2) " + c2.message + "\n(SHA: " + c2.sha + ")\n");
  }

  lemma DefaultFirstEntry(c: Commit, login: string)
    requires c.author == Present(Some(login))
    ensures Entry("", c, 0) == Success("\n1) " + c.message + " (" + login + ")\n(SHA: " + c.sha + ")\n")
  {
    Text.SmallNumbers();
    assert "\n" + "1" + ") " + c.message + (" (" + login + ")") + "\n(SHA: " + c.sha + ")\n"
           == "\n1) " + c.message + " (" + login + ")\n(SHA: " + c.sha + ")\n";
  }

  lemma DefaultSecondEntry(c: Commit)
    requires c.author == Missing
    ensures Entry("", c, 1) == Success("2) " + c.message + "\n(SHA: " + c.sha + ")\n")
  {
    Text.SmallNumbers();
    assert "" + "2" + ") " + c.message + "" + "\n(SHA: " + c.sha + ")\n"
           == "2) " + c.message + "\n(SHA: " + c.sha + ")\n";
  }
}
