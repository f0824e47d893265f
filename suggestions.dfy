/**
  The autocomplete endpoint of api/suggestions.js as one total function from
  the request, the server configuration and the upstream completion to the
  HTTP response. The call to the language model and `JSON.parse` are inputs:
  `upstream` says how the chat-completion call ended and `parse` stands for
  `JSON.parse` on the cleaned text.
 */
module Suggestions {
  import opened Maybe
  import opened Text

  const MAX_SUGGESTIONS: nat := 6
  const MIN_PREFIX: nat := 2
  const FENCE_JSON: string := "```json"
  const FENCE: string := "```"

  /**
    The parts of the incoming request the handler reads: the HTTP method,
    whether `req.body` is present at all (a missing or null body makes the
    destructuring of `req.body` throw), and `req.body.prefix`.
   */
  datatype Request = Request(httpMethod: string, hasBody: bool, prefix: Option<string>)

  /**
    `d.choices?.[0]?.message?.content` of the upstream reply: missing (or any
    falsy value, including ""), a string, or some other truthy value.
   */
  datatype Content = Missing | Text(text: string) | NonText

  /** How the upstream call ended: `fetch` or `r.json()` threw, or it answered. */
  datatype Upstream = Threw | Answered(content: Content)

  /** What `JSON.parse` made of the cleaned text. */
  datatype Parsed<T> = SyntaxError | NotArray | Array(items: seq<T>)

  datatype Body<T> = ErrorBody(error: string) | SuggestionsBody(suggestions: seq<T>)
  /**
    A reply sent with `res.status(…).json(…)` / `res.json(…)`, or none: the
    handler threw before replying, and the platform's own error answer is
    not part of this model.
   */
  datatype Response<T> = Response(status: nat, body: Body<T>) | Unanswered

  /** The one response body every failure of the POST path collapses to. */
  function Empty<T>(): Response<T> {
    Response(200, SuggestionsBody([]))
  }

  /** `s` starts with `p`. */
  predicate StartsWith(s: string, p: string) {
    |p| <= |s| && s[..|p|] == p
  }

  /**
    `s.replace(/```json|```/g, "")`: a left-to-right scan that, at each position,
    removes "```json" if it starts there, else "```" if it starts there, and
    otherwise keeps the character.
   */
  function StripFences(s: string): (r: string)
    ensures |r| <= |s|
    decreases |s|
  {
    if StartsWith(s, FENCE_JSON) then StripFences(s[|FENCE_JSON|..])
    else if StartsWith(s, FENCE) then StripFences(s[|FENCE|..])
    else if s == [] then []
    else [s[0]] + StripFences(s[1..])
  }

  /** `s` holds a "```" somewhere. */
  predicate HasFence(s: string) {
    Contains(s, FENCE)
  }

  /** A string that does not start with "```" is kept from its first character on. */
  lemma StripKeepsHead(s: string)
    requires s != [] && !StartsWith(s, FENCE)
    ensures StripFences(s) == [s[0]] + StripFences(s[1..])
  {
    assert |s| >= |FENCE_JSON| ==> s[..|FENCE_JSON|][..|FENCE|] == s[..|FENCE|];
  }

  /**
    When `s` starts with a backquote but not with "```", what stripping makes of
    the rest cannot start with two more backquotes.
   */
  lemma StripAfterTick(s: string)
    requires s != [] && s[0] == '`' && !StartsWith(s, FENCE)
    ensures var r := StripFences(s[1..]); !(|r| >= 2 && r[0] == '`' && r[1] == '`')
  {
    var t := s[1..];
    if t != [] {
      assert |t| >= 2 ==> s[..3] == [s[0], t[0], t[1]];
      StripKeepsHead(t);
      if t[0] == '`' && |t| > 1 {
        var u := t[1..];
        assert s[..3] == [s[0], t[0], u[0]];
        StripKeepsHead(u);
      } else if t[0] == '`' {
        assert t[1..] == [];
      }
    }
  }

  /** After `replace(/```json|```/g, "")` no "```" is left, not even one formed by the removals. */
  lemma {:induction false} StripLeavesNoFence(s: string)
    ensures !HasFence(StripFences(s))
    decreases |s|
  {
    if StartsWith(s, FENCE_JSON) {
      StripLeavesNoFence(s[|FENCE_JSON|..]);
    } else if StartsWith(s, FENCE) {
      StripLeavesNoFence(s[|FENCE|..]);
    } else if s != [] {
      var rest := StripFences(s[1..]);
      StripLeavesNoFence(s[1..]);
      StripKeepsHead(s);
      var r := [s[0]] + rest;
      assert |FENCE| == 3;
      forall i | 0 <= i <= |r| - 3 ensures !OccursAt(r, FENCE, i) {
        if i == 0 {
          if s[0] == '`' {
            StripAfterTick(s);
          }
          assert r[..3] == [s[0], rest[0], rest[1]];
        } else {
          assert r[i..i + 3] == rest[i - 1..i + 2];
          assert !OccursAt(rest, FENCE, i - 1);
        }
      }
    }
  }

  /** A slice of a string without "```" has none either. */
  lemma SliceKeepsNoFence(s: string, a: nat, b: nat)
    requires a <= b <= |s| && !HasFence(s)
    ensures !HasFence(s[a..b])
  {
    var t := s[a..b];
    assert |FENCE| == 3;
    forall i | 0 <= i <= |t| - 3 ensures !OccursAt(t, FENCE, i) {
      var u, v := t[i..i + 3], s[a + i..a + i + 3];
      forall k | 0 <= k < 3 ensures u[k] == v[k] {
        assert t[i + k] == s[a + i + k];
      }
      assert u == v;
      assert !OccursAt(s, FENCE, a + i);
    }
  }

  /** `(d.choices?.[0]?.message?.content || "[]")`, or nothing when `.replace` would throw. */
  function ContentText(c: Content): (r: Option<string>)
    ensures c.Missing? ==> r == Some("[]")
    ensures c.NonText? ==> r.None?
    ensures c.Text? && c.text != "" ==> r == Some(c.text)
    ensures c == Text("") ==> r == Some("[]")
  {
    match c
    case Missing => Some("[]")
    case Text(s) => if s == "" then Some("[]") else Some(s)
    case NonText => None
  }

  /** `content.replace(/```json|```/g, "").trim()`: the text handed to `JSON.parse`. */
  function Clean(s: string): (r: string)
    ensures |r| <= |s|
  {
    Trim(StripFences(s))
  }

  /** The cleaned text holds no "```" and neither starts nor ends with white space. */
  lemma CleanSpec(s: string)
    ensures !HasFence(Clean(s))
    ensures Clean(s) != [] ==> !IsSpace(Clean(s)[0]) && !IsSpace(Clean(s)[|Clean(s)| - 1])
  {
    StripLeavesNoFence(s);
    TrimKeepsNoFence(StripFences(s));
  }

  /** Trimming cannot create a "```". */
  lemma TrimKeepsNoFence(s: string)
    requires !HasFence(s)
    ensures !HasFence(Trim(s))
  {
    var r := Trim(s);
    var i: nat :| TrimmedAt(s, r, i);
    SliceKeepsNoFence(s, i, i + |r|);
  }

  /** `Array.isArray(x) ? x.slice(0, 6) : []`. */
  function Shape<T>(p: Parsed<T>): (r: seq<T>)
    ensures |r| <= MAX_SUGGESTIONS
    ensures p.Array? ==> r <= p.items && (|p.items| <= MAX_SUGGESTIONS ==> r == p.items)
    ensures p.Array? && |p.items| > MAX_SUGGESTIONS ==> |r| == MAX_SUGGESTIONS
    ensures !p.Array? ==> r == []
  {
    match p
    case Array(xs) => if |xs| <= MAX_SUGGESTIONS then xs else xs[..MAX_SUGGESTIONS]
    case _ => []
  }

  /** The guard clauses let the request through to the language model. */
  predicate ReachesUpstream(req: Request, hasKey: bool) {
    req.httpMethod == "POST" && req.hasBody && req.prefix.Some? && |req.prefix.value| >= MIN_PREFIX && hasKey
  }

  /** The handler: guard clauses, then fence stripping, the array check and the cut to six. */
  function Handle<T>(req: Request, hasKey: bool, upstream: Upstream, parse: string -> Parsed<T>): (resp: Response<T>)
    ensures req.httpMethod != "POST" ==> resp == Response(405, ErrorBody("Method not allowed"))
    ensures req.httpMethod == "POST" && !req.hasBody ==> resp == Unanswered
    ensures req.httpMethod == "POST" && req.hasBody ==> resp.Response? && resp.status == 200 && resp.body.SuggestionsBody?
    ensures resp.Response? && resp.body.SuggestionsBody? ==> |resp.body.suggestions| <= MAX_SUGGESTIONS
    ensures req.httpMethod == "POST" && req.hasBody && !ReachesUpstream(req, hasKey) ==> resp == Empty()
  {
    if req.httpMethod != "POST" then Response(405, ErrorBody("Method not allowed"))
    else if !req.hasBody then Unanswered
    else if req.prefix.None? || |req.prefix.value| < MIN_PREFIX then Empty()
    else if !hasKey then Empty()
    else match upstream
      case Threw => Empty()
      case Answered(c) =>
        match ContentText(c)
        case None => Empty()
        case Some(text) =>
          match parse(Clean(text))
          case SyntaxError => Empty()
          case parsed => Response(200, SuggestionsBody(Shape(parsed)))
  }

  /** A request stopped by a guard clause never depends on the upstream: the model is not contacted. */
  lemma GuardedRequestIgnoresUpstream<T>(req: Request, hasKey: bool,
                                         u1: Upstream, p1: string -> Parsed<T>,
                                         u2: Upstream, p2: string -> Parsed<T>)
    requires !ReachesUpstream(req, hasKey)
    ensures Handle(req, hasKey, u1, p1) == Handle(req, hasKey, u2, p2)
  {
  }

  /**
    Every suggestion that comes back is from the model's own array, cut to a
    prefix of at most six: the response is non-empty only when the upstream
    answered with text that parsed as an array.
   */
  lemma SuggestionsComeFromParsedArray<T>(req: Request, hasKey: bool, upstream: Upstream, parse: string -> Parsed<T>)
    requires Handle(req, hasKey, upstream, parse).Response?
    requires Handle(req, hasKey, upstream, parse).body.SuggestionsBody?
    requires Handle(req, hasKey, upstream, parse).body.suggestions != []
    ensures ReachesUpstream(req, hasKey) && upstream.Answered?
    ensures ContentText(upstream.content).Some?
    ensures var parsed := parse(Clean(ContentText(upstream.content).value));
            parsed.Array? && Handle(req, hasKey, upstream, parse).body.suggestions <= parsed.items
  {
  }

  /**
    An answer whose content parses as an array is answered with that array's
    first six items, with status 200.
   */
  lemma ArrayReplyIsShaped<T>(req: Request, hasKey: bool, text: string, parse: string -> Parsed<T>)
    requires ReachesUpstream(req, hasKey) && text != "" && parse(Clean(text)).Array?
    ensures Handle(req, hasKey, Answered(Text(text)), parse) == Response(200, SuggestionsBody(Shape(parse(Clean(text)))))
  {
  }

  /** Missing or empty content is parsed as "[]", so the answer is whatever `JSON.parse("[]")` gives, shaped. */
  lemma EmptyContentParsesEmptyArray<T>(req: Request, hasKey: bool, c: Content, parse: string -> Parsed<T>)
    requires ReachesUpstream(req, hasKey) && (c == Missing || c == Text("")) && parse("[]").Array?
    ensures Handle(req, hasKey, Answered(c), parse) == Response(200, SuggestionsBody(Shape(parse("[]"))))
  {
    CleanEmptyArray();
  }

  /** Every failure after the guards (network, non-string content, bad JSON, non-array) is an empty list, never an error status. */
  lemma FailuresAreEmpty<T>(req: Request, hasKey: bool, upstream: Upstream, parse: string -> Parsed<T>)
    requires ReachesUpstream(req, hasKey)
    requires || upstream.Threw?
             || (upstream.Answered? && upstream.content.NonText?)
             || (upstream.Answered? && ContentText(upstream.content).Some?
                 && !parse(Clean(ContentText(upstream.content).value)).Array?)
    ensures Handle(req, hasKey, upstream, parse) == Empty()
  {
  }

  /** Missing content is read as the empty JSON array "[]". */
  lemma MissingContentIsEmptyArray<T>(req: Request, hasKey: bool, parse: string -> Parsed<T>)
    ensures Handle(req, hasKey, Answered(Missing), parse) == Handle(req, hasKey, Answered(Text("[]")), parse)
    ensures Clean("[]") == "[]"
  {
    SameTextSameAnswer(req, hasKey, Missing, Text("[]"), parse);
    CleanEmptyArray();
  }

  /** Two contents that read as the same text are answered alike. */
  lemma SameTextSameAnswer<T>(req: Request, hasKey: bool, c1: Content, c2: Content, parse: string -> Parsed<T>)
    requires ContentText(c1) == ContentText(c2)
    ensures Handle(req, hasKey, Answered(c1), parse) == Handle(req, hasKey, Answered(c2), parse)
  {
  }

  /** The text "[]" comes through the cleaning unchanged. */
  lemma CleanEmptyArray()
    ensures Clean("[]") == "[]"
  {
    var e := "[]";
    StripEmptyArray();
    assert !IsSpace(e[0]) && !IsSpace(e[1]);
    assert TrimStart(e) == e;
    assert TrimEnd(e) == e;
  }

  /** "[]" holds no fence, so stripping keeps it. */
  lemma StripEmptyArray()
    ensures StripFences("[]") == "[]"
  {
    var e := "[]";
    StripKeepsHead(e);
    StripKeepsHead(e[1..]);
    assert e[1..][1..] == [];
  }

  /** `s` holds no backquote at all. */
  predicate TickFree(s: string) {
    forall i :: 0 <= i < |s| ==> s[i] != '`'
  }

  /** Text before the first backquote is kept as it is, and the rest is stripped on its own. */
  lemma {:induction false} StripKeepsTickFreePrefix(a: string, b: string)
    requires TickFree(a)
    ensures StripFences(a + b) == a + StripFences(b)
    decreases |a|
  {
    if a != [] {
      var s := a + b;
      assert s[0] == a[0];
      assert |s| >= |FENCE| ==> s[..|FENCE|][0] == s[0];
      StripKeepsHead(s);
      assert s[1..] == a[1..] + b;
      StripKeepsTickFreePrefix(a[1..], b);
      assert [a[0]] + a[1..] == a;
    } else {
      assert a + b == b;
    }
  }

  /** Text without "```" passes through the fence removal unchanged. */
  lemma {:induction false} StripKeepsFenceFree(s: string)
    requires !HasFence(s)
    ensures StripFences(s) == s
    decreases |s|
  {
    if s != [] {
      assert |s| >= |FENCE| ==> !OccursAt(s, FENCE, 0) && s[0..|FENCE|] == s[..|FENCE|];
      StripKeepsHead(s);
      SliceKeepsNoFence(s, 1, |s|);
      assert s[1..|s|] == s[1..];
      StripKeepsFenceFree(s[1..]);
      assert [s[0]] + s[1..] == s;
    }
  }

  /** An opening "```json" is removed whole, tag included. */
  lemma StripDropsJsonFence(x: string)
    ensures StripFences(FENCE_JSON + x) == StripFences(x)
  {
    var s := FENCE_JSON + x;
    assert s[..|FENCE_JSON|] == FENCE_JSON;
    assert s[|FENCE_JSON|..] == x;
  }

  /** A bare "```" not followed by "json" is removed on its own. */
  lemma StripDropsFence(x: string)
    requires !StartsWith(x, "json")
    ensures StripFences(FENCE + x) == StripFences(x)
  {
    var s := FENCE + x;
    assert |s| >= |FENCE_JSON| ==> s[3..7] == x[..4];
    assert s[..|FENCE|] == FENCE;
    assert s[|FENCE|..] == x;
  }

  /** The fenced reply "```json<x>```" is stripped to its payload `x`, when `x` holds no backquote. */
  lemma StripFencedPayload(x: string)
    requires TickFree(x)
    ensures StripFences(FENCE_JSON + x + FENCE) == x
  {
    assert FENCE_JSON + x + FENCE == FENCE_JSON + (x + FENCE);
    StripDropsJsonFence(x + FENCE);
    StripKeepsTickFreePrefix(x, FENCE);
    StripDropsFence([]);
    assert FENCE + [] == FENCE;
    assert x + [] == x;
  }

  /** Text without a fence is only trimmed before `JSON.parse`. */
  lemma CleanFenceFree(s: string)
    requires !HasFence(s)
    ensures Clean(s) == Trim(s)
  {
    StripKeepsFenceFree(s);
  }

  /** A fenced reply is cleaned to its trimmed payload. */
  lemma CleanFencedPayload(x: string)
    requires TickFree(x)
    ensures Clean(FENCE_JSON + x + FENCE) == Trim(x)
  {
    StripFencedPayload(x);
  }

  /**
    A fenced reply "```json<x>```" whose trimmed payload parses as an array is
    answered with that array's first six items.
   */
  lemma FencedReplyIsShaped<T>(req: Request, hasKey: bool, x: string, parse: string -> Parsed<T>)
    requires ReachesUpstream(req, hasKey) && TickFree(x) && parse(Trim(x)).Array?
    ensures Handle(req, hasKey, Answered(Text(FENCE_JSON + x + FENCE)), parse)
            == Response(200, SuggestionsBody(Shape(parse(Trim(x)))))
  {
    CleanFencedPayload(x);
    ArrayReplyIsShaped(req, hasKey, FENCE_JSON + x + FENCE, parse);
  }
}
