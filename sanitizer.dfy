/**
 * The cleaning and parsing step of `getChequeInfo` (app/api/savePhoto/getInfo.js):
 * the recognition service's raw text loses every "```json" + newline, every "```" and
 * every escaped newline (backslash followed by `n`), is trimmed, and goes to `JSON.parse`.
 *
 * The upload and generation calls before it are an input (`reply`, their text or their
 * failure); `JSON.parse` is the parameter `parse`, a partial function given as total
 * into Option.
 */
module Sanitizer {
  import opened Common
  import opened Json
  import opened JsString

  const JsonFence: string := "```json\n"
  const Fence: string := "```"
  /** The two characters backslash and `n`, not a line break. */
  const EscapedNewline: string := "\\n"

  /**
   * One left-to-right pass of `replace(/```json\n|```|\\n/g, '')`: where an
   * alternative matches (tried in that order) it is dropped and scanning resumes after
   * it; elsewhere one character is kept. Text produced by a removal is not rescanned.
   */
  function StripMarkers(s: string): (r: string)
    ensures |r| <= |s|
    decreases |s|
  {
    if s == [] then []
    else
      var n := MatchLength(s);
      if n > 0 then StripMarkers(s[n..]) else [s[0]] + StripMarkers(s[1..])
  }

  /** Length of the alternative matching at the start of `s`, tried in the pattern's order; 0 for none. */
  function MatchLength(s: string): (n: nat)
    ensures n <= |s|
  {
    if |s| >= 8 && s[0] == '`' && s[1] == '`' && s[2] == '`' && s[3] == 'j' && s[4] == 's' && s[5] == 'o'
       && s[6] == 'n' && s[7] == '\n' then 8
    else if |s| >= 3 && s[0] == '`' && s[1] == '`' && s[2] == '`' then 3
    else if |s| >= 2 && s[0] == '\\' && s[1] == 'n' then 2
    else 0
  }

  /** Some alternative of the pattern matches at position `i` ("```json\n" begins with "```"). */
  predicate MarkerAt(s: string, i: nat)
    requires i <= |s|
  {
    || (i + 3 <= |s| && s[i] == '`' && s[i + 1] == '`' && s[i + 2] == '`')
    || (i + 2 <= |s| && s[i] == '\\' && s[i + 1] == 'n')
  }

  /** The two readings of "an alternative starts here" agree: `MarkerAt` is where `MatchLength` is positive. */
  lemma MarkerAtMatches(s: string, i: nat)
    requires i <= |s|
    ensures MarkerAt(s, i) <==> MatchLength(s[i..]) > 0
  {
    var x := s[i..];
    assert |x| >= 2 ==> x[0] == s[i] && x[1] == s[i + 1];
    assert |x| >= 3 ==> x[2] == s[i + 2];
  }

  predicate MarkerFree(s: string) {
    forall i | 0 <= i < |s| :: !MarkerAt(s, i)
  }

  /** `responseText.replace(...).trim()`. */
  function Clean(raw: string): (r: string)
    ensures |r| <= |raw|
    ensures Tight(r)
  {
    Trim(StripMarkers(raw))
  }

  /** Where no alternative matches, the pass keeps the first character and goes on. */
  lemma StripKeeps(s: string)
    requires s != [] && !MarkerAt(s, 0)
    ensures StripMarkers(s) == [s[0]] + StripMarkers(s[1..])
  {
  }

  /** Where the escaped pair starts, the pass drops it and goes on. */
  lemma StripDropsEscape(s: string)
    requires 2 <= |s| && s[0] == '\\' && s[1] == 'n'
    ensures StripMarkers(s) == StripMarkers(s[2..])
  {
    assert !StartsWith(s, JsonFence) && !StartsWith(s, Fence) by {
      assert |s| >= 3 ==> s[..3][0] == '\\';
    }
    assert s[..2] == EscapedNewline;
  }

  /** No alternative starts before position `n`. */
  predicate PlainUpTo(s: string, n: nat)
    requires n <= |s|
  {
    forall i | 0 <= i < n :: !MarkerAt(s, i)
  }

  /** The first `n` characters, where no alternative starts, pass through the pass unchanged. */
  lemma StripPlainPrefix(s: string, n: nat)
    requires n <= |s| && PlainUpTo(s, n)
    ensures StripMarkers(s) == s[..n] + StripMarkers(s[n..])
  {
    StripPlainFrom(s, 0, n);
    assert s[0..] == s && s[0..n] == s[..n];
  }

  /** The same from position `i` on: characters where no alternative starts are kept one by one. */
  lemma {:induction false} StripPlainFrom(s: string, i: nat, n: nat)
    requires i <= n <= |s| && forall j | i <= j < n :: !MarkerAt(s, j)
    ensures StripMarkers(s[i..]) == s[i..n] + StripMarkers(s[n..])
    decreases n - i
  {
    if i == n {
      assert s[i..n] == [];
    } else {
      StripPlainFrom(s, i + 1, n);
      StripPlainStep(s, i, n, StripMarkers(s[n..]));
    }
  }

  /** One step of the induction above: the character at `i` is kept, the rest is as assumed. */
  lemma StripPlainStep(s: string, i: nat, n: nat, tail: string)
    requires i < n <= |s| && !MarkerAt(s, i)
    requires StripMarkers(s[i + 1..]) == s[i + 1..n] + tail
    ensures StripMarkers(s[i..]) == s[i..n] + tail
  {
    var k := i + 1;
    assert MatchLength(s[i..]) == 0 by {
      assert |s[i..]| >= 2 ==> s[i..][0] == s[i] && s[i..][1] == s[k];
      assert |s[i..]| >= 3 ==> s[i..][2] == s[i + 2];
    }
    KeepOne(s[i..], s[k..]);
    Glue(s, i, k, n, tail);
  }

  /** Where no alternative starts, the pass keeps the first character and goes on with the rest. */
  lemma KeepOne(x: string, xs: string)
    requires x != [] && MatchLength(x) == 0 && xs == x[1..]
    ensures StripMarkers(x) == [x[0]] + StripMarkers(xs)
  {
  }

  lemma Glue(s: string, i: nat, k: nat, n: nat, tail: string)
    requires i < n <= |s| && k == i + 1
    ensures [s[i]] + (s[k..n] + tail) == s[i..n] + tail
  {
    assert [s[i]] + s[k..n] == s[i..n];
  }

  /** The same, for text written as a plain part `p` followed by the rest `t`. */
  lemma StripPlainPart(p: string, t: string)
    requires PlainUpTo(p + t, |p|)
    ensures StripMarkers(p + t) == p + StripMarkers(t)
  {
    var s := p + t;
    StripPlainPrefix(s, |p|);
    assert s[..|p|] == p && s[|p|..] == t;
  }

  /** Text in which no alternative matches anywhere is only trimmed. */
  lemma PlainTextOnlyTrimmed(s: string)
    requires MarkerFree(s)
    ensures StripMarkers(s) == s
    ensures Clean(s) == Trim(s)
  {
    StripPlainPrefix(s, |s|);
    assert s[..|s|] == s && s[|s|..] == [];
  }

  /** A line break ends every match that could start before it. */
  lemma NoMarkerBeforeNewline(a: string, t: string)
    requires MarkerFree(a)
    ensures PlainUpTo(a + "\n" + t, |a| + 1)
  {
    var u := a + "\n" + t;
    assert u[|a|] == '\n';
    forall i | 0 <= i <= |a|
      ensures !MarkerAt(u, i)
    {
      if i < |a| {
        assert !MarkerAt(a, i);
        assert u[i] == a[i];
        if i + 1 < |a| { assert u[i + 1] == a[i + 1]; }
        if i + 2 < |a| { assert u[i + 2] == a[i + 2]; }
      }
    }
  }

  /**
   * The decoration the prompt invites: "```json" + newline + J + newline + "```" cleans
   * to exactly J, for a J with no fence, no escaped newline and no whitespace at its ends.
   */
  lemma FencedJsonCleansToItself(j: string)
    requires MarkerFree(j) && Tight(j)
    ensures Clean(JsonFence + j + "\n" + Fence) == j
  {
    FencedJsonStrips(j);
    assert AllWhitespace("\n");
    TrimPadded([], j, "\n");
    assert [] + j + "\n" == j + "\n";
  }

  /** The pass drops the opening fence with its line break and the closing fence, and keeps the rest. */
  lemma FencedJsonStrips(j: string)
    requires MarkerFree(j)
    ensures StripMarkers(JsonFence + j + "\n" + Fence) == j + "\n"
  {
    var rest := j + "\n" + Fence;
    OpenerDropped(JsonFence + j + "\n" + Fence, rest);
    NoMarkerBeforeNewline(j, Fence);
    StripPlainPart(j + "\n", Fence);
    assert StripMarkers(Fence) == [] by {
      assert MatchLength(Fence) == 3;
      assert Fence[3..] == [];
    }
    assert j + "\n" + [] == j + "\n";
  }

  /** The opening fence with its line break is one match, dropped as a whole. */
  lemma OpenerDropped(s: string, rest: string)
    requires s == JsonFence + rest
    ensures StripMarkers(s) == StripMarkers(rest)
  {
    assert MatchLength(s) == 8;
    assert s[8..] == rest;
  }

  /**
   * The pass over `s` from position `i` splits at `n` when, from every position before
   * `n`, the alternative found (if any) is the same one that the text up to `n` alone
   * would give: no match reaches across `n`.
   */
  predicate CutSafe(s: string, i: nat, n: nat)
    requires i <= n <= |s|
  {
    forall j | i <= j < n :: MatchLength(s[j..]) == MatchLength(s[j..n])
  }

  lemma {:induction false} StripSplit(s: string, i: nat, n: nat)
    requires i <= n <= |s| && CutSafe(s, i, n)
    ensures StripMarkers(s[i..]) == StripMarkers(s[i..n]) + StripMarkers(s[n..])
    decreases n - i
  {
    if i == n {
      EmptyPart(s[i..n], StripMarkers(s[n..]));
    } else {
      var k, head := SplitStep(s, i, n);
      CutSafeFrom(s, i, k, n);
      StripSplit(s, k, n);
      Regroup(StripMarkers(s[i..]), StripMarkers(s[i..n]), head, StripMarkers(s[k..]),
              StripMarkers(s[k..n]), StripMarkers(s[n..]));
    }
  }

  /**
   * One step of the split: the first match (or the first character) is the same whether
   * the text is cut at `n` or not, and contributes `head` to both results.
   */
  lemma SplitStep(s: string, i: nat, n: nat) returns (k: nat, head: string)
    requires i < n <= |s| && CutSafe(s, i, n)
    ensures i < k <= n
    ensures StripMarkers(s[i..]) == head + StripMarkers(s[k..])
    ensures StripMarkers(s[i..n]) == head + StripMarkers(s[k..n])
  {
    var m := MatchLength(s[i..]);
    assert m == MatchLength(s[i..n]);
    if m > 0 {
      k, head := i + m, [];
      DropStep(s[i..], s[i..n], m, s[k..], s[k..n]);
    } else {
      k, head := i + 1, [s[i]];
      KeepStep(s[i..], s[i..n], s[k..], s[k..n]);
    }
  }

  /** Where the same alternative starts both texts, both drop it. */
  lemma DropStep(x: string, y: string, m: nat, xs: string, ys: string)
    requires 0 < m == MatchLength(x) == MatchLength(y) && xs == x[m..] && ys == y[m..]
    ensures StripMarkers(x) == StripMarkers(xs) && StripMarkers(y) == StripMarkers(ys)
  {
  }

  /** Where no alternative starts either text, both keep the first character. */
  lemma KeepStep(x: string, y: string, xs: string, ys: string)
    requires x != [] && y != [] && x[0] == y[0]
    requires MatchLength(x) == 0 == MatchLength(y) && xs == x[1..] && ys == y[1..]
    ensures StripMarkers(x) == [x[0]] + StripMarkers(xs) && StripMarkers(y) == [x[0]] + StripMarkers(ys)
  {
  }

  lemma EmptyPart(e: string, t: string)
    requires e == []
    ensures StripMarkers(e) + t == t
  {
  }

  lemma CutSafeFrom(s: string, i: nat, k: nat, n: nat)
    requires i <= k <= n <= |s| && CutSafe(s, i, n)
    ensures CutSafe(s, k, n)
  {
  }

  /** The split's bookkeeping: `whole` and `part` share their head, and their rests differ by `tail`. */
  lemma Regroup(whole: string, part: string, head: string, rest: string, partRest: string, tail: string)
    requires whole == head + rest && part == head + partRest && rest == partRest + tail
    ensures whole == part + tail
  {
  }

  /** The text ends in the opening fence without its line break. */
  predicate EndsWithJsonOpener(a: string) {
    |a| >= 7 && a[|a| - 7..] == "```json"
  }

  /** No alternative reaches across a line break, except "```json" before it. */
  lemma MatchBeforeNewline(x: string, t: string)
    requires x != [] && x != "```json" && t != [] && t[0] == '\n'
    ensures MatchLength(x + t) == MatchLength(x)
  {
    var u := x + t;
    assert forall k | 0 <= k < |x| :: u[k] == x[k];
    assert u[|x|] == '\n';
  }

  /** No alternative reaches across a backslash. */
  lemma MatchBeforeBackslash(x: string, t: string)
    requires x != [] && t != [] && t[0] == '\\'
    ensures MatchLength(x + t) == MatchLength(x)
  {
    var u := x + t;
    assert forall k | 0 <= k < |x| :: u[k] == x[k];
    assert u[|x|] == '\\';
  }

  /** A line break cuts the pass: what is before it and what is after it are cleaned separately. */
  lemma StripAroundNewline(a: string, b: string)
    requires !EndsWithJsonOpener(a)
    ensures StripMarkers(a + "\n" + b) == StripMarkers(a) + "\n" + StripMarkers(b)
  {
    NewlineCutSafe(a, b);
    StripCut(a + "\n" + b, a, "\n" + b);
    StripLeadingNewline("\n" + b, b);
  }

  /** The split at a safe cut, for text given as its two parts. */
  lemma StripCut(s: string, x: string, y: string)
    requires s == x + y && CutSafe(s, 0, |x|)
    ensures StripMarkers(s) == StripMarkers(x) + StripMarkers(y)
  {
    StripSplit(s, 0, |x|);
    assert s[0..] == s && s[0..|x|] == x && s[|x|..] == y;
  }

  lemma NewlineCutSafe(a: string, b: string)
    requires !EndsWithJsonOpener(a)
    ensures CutSafe(a + "\n" + b, 0, |a|)
  {
    var s := a + "\n" + b;
    var n := |a|;
    forall j | 0 <= j < n
      ensures MatchLength(s[j..]) == MatchLength(s[j..n])
    {
      assert s[j..] == s[j..n] + s[n..];
      assert s[j..n] == a[j..];
      assert |a[j..]| == 7 ==> a[j..] == a[|a| - 7..];
      MatchBeforeNewline(s[j..n], s[n..]);
    }
  }

  lemma StripLeadingNewline(t: string, b: string)
    requires t == "\n" + b
    ensures StripMarkers(t) == "\n" + StripMarkers(b)
  {
    assert MatchLength(t) == 0;
    assert t[1..] == b;
  }

  /** An escaped newline cuts the pass too, and itself disappears. */
  lemma StripAroundEscape(a: string, b: string)
    ensures StripMarkers(a + EscapedNewline + b) == StripMarkers(a) + StripMarkers(b)
  {
    EscapeCutSafe(a, b);
    StripCut(a + EscapedNewline + b, a, EscapedNewline + b);
    StripLeadingEscape(EscapedNewline + b, b);
  }

  lemma StripLeadingEscape(t: string, b: string)
    requires t == EscapedNewline + b
    ensures StripMarkers(t) == StripMarkers(b)
  {
    StripDropsEscape(t);
    assert t[2..] == b;
  }

  lemma EscapeCutSafe(a: string, b: string)
    ensures CutSafe(a + EscapedNewline + b, 0, |a|)
  {
    var s := a + EscapedNewline + b;
    var n := |a|;
    forall j | 0 <= j < n
      ensures MatchLength(s[j..]) == MatchLength(s[j..n])
    {
      assert s[j..] == s[j..n] + s[n..];
      MatchBeforeBackslash(s[j..n], s[n..]);
    }
  }

  /**
   * A real line break survives cleaning when there is something other than whitespace
   * on both sides of it after the pass: it sits inside the trimmed result, at the
   * position of the cleaned text before it.
   */
  lemma NewlineSurvives(a: string, b: string, i: nat, j: nat)
    requires !EndsWithJsonOpener(a)
    requires i < |StripMarkers(a)| && !IsWhitespace(StripMarkers(a)[i])
    requires j < |StripMarkers(b)| && !IsWhitespace(StripMarkers(b)[j])
    ensures var pre := StripMarkers(a);
      var lead := JsString.TrimStartIndex(pre + "\n" + StripMarkers(b));
      && Clean(a + "\n" + b) == Trim(pre + "\n" + StripMarkers(b))
      && lead <= |pre| < lead + |Clean(a + "\n" + b)|
      && Clean(a + "\n" + b)[|pre| - lead] == '\n'
  {
    StripAroundNewline(a, b);
    NewlineInside(StripMarkers(a), StripMarkers(b), i, j);
  }

  /** A line break between two characters that are not whitespace is kept by `trim`. */
  lemma NewlineInside(pre: string, post: string, i: nat, j: nat)
    requires i < |pre| && !IsWhitespace(pre[i]) && j < |post| && !IsWhitespace(post[j])
    ensures var lead := JsString.TrimStartIndex(pre + "\n" + post);
      && lead <= |pre| < lead + |Trim(pre + "\n" + post)|
      && Trim(pre + "\n" + post)[|pre| - lead] == '\n'
  {
    var s := pre + "\n" + post;
    assert s[i] == pre[i] && s[|pre| + 1 + j] == post[j] && s[|pre|] == '\n';
    JsString.TrimKeepsBetween(s, i, |pre| + 1 + j, |pre|);
  }

  /** The escaped pair backslash-`n`, unlike a line break, is removed wherever it stands. */
  lemma EscapedNewlineRemoved(a: string, b: string)
    ensures Clean(a + EscapedNewline + b) == Trim(StripMarkers(a) + StripMarkers(b))
  {
    StripAroundEscape(a, b);
  }

  /** Nor can a match start before an escaped newline that follows marker-free text. */
  lemma NoMarkerBeforeEscape(a: string)
    requires MarkerFree(a)
    ensures PlainUpTo(a + EscapedNewline, |a|)
  {
    var u := a + EscapedNewline;
    assert u[|a|] == '\\' && u[|a| + 1] == 'n';
    forall i | 0 <= i < |a|
      ensures !MarkerAt(u, i)
    {
      assert !MarkerAt(a, i);
      assert u[i] == a[i];
      if i + 1 < |a| { assert u[i + 1] == a[i + 1]; }
      if i + 2 < |a| { assert u[i + 2] == a[i + 2]; }
    }
  }

  /** An escaped newline after marker-free text is dropped, and the text is kept. */
  lemma StripTrailingEscape(j: string)
    requires MarkerFree(j)
    ensures StripMarkers(j + EscapedNewline) == j
  {
    var u := j + EscapedNewline;
    NoMarkerBeforeEscape(j);
    StripPlainPrefix(u, |j|);
    assert u[..|j|] == j;
    var e := u[|j|..];
    assert e == EscapedNewline;
    StripDropsEscape(e);
    assert e[2..] == [];
    assert j + [] == j;
  }

  /** Escaped newlines around a marker-free, tight text are removed and nothing else is. */
  lemma EscapedNewlinesAroundRemoved(j: string)
    requires MarkerFree(j) && Tight(j)
    ensures Clean(EscapedNewline + j + EscapedNewline) == j
  {
    LeadingEscapeDropped(EscapedNewline + j + EscapedNewline, j + EscapedNewline);
    StripTrailingEscape(j);
    TrimTight(j);
  }

  lemma LeadingEscapeDropped(s: string, rest: string)
    requires s == EscapedNewline + rest
    ensures StripMarkers(s) == StripMarkers(rest)
  {
    StripDropsEscape(s);
    assert s[2..] == rest;
  }

  /** One pass is not a fixpoint: removing an escaped newline can join a new fence. */
  lemma CleanNotIdempotent()
    ensures Clean("``\\n`") == "```"
    ensures Clean(Clean("``\\n`")) == ""
  {
    var s := "``\\n`";
    assert StripMarkers(s[4..]) == "`" by {
      assert s[4..] == "`";
      assert StripMarkers(""[..]) == "";
    }
    assert StripMarkers(s[2..]) == "`" by {
      assert StartsWith(s[2..], EscapedNewline);
      assert s[2..][2..] == s[4..];
    }
    assert StripMarkers(s[1..]) == "``" by {
      assert s[1..][1..] == s[2..];
    }
    assert StripMarkers(s) == "```";
    TrimTight("```");
    assert StripMarkers("```") == "" by {
      assert StartsWith("```", Fence);
    }
    TrimTight("");
  }

  /**
   * The cleaning and parsing step: a failed service call is rethrown, cleaned text that
   * is not JSON fails with MalformedJson and yields no value, otherwise the parsed value.
   */
  function GetChequeInfo(reply: Result<string, Error>, parse: string -> Option<JsonValue>): (r: Result<JsonValue, Error>)
    ensures reply.Failure? ==> r == Failure(reply.error)
    ensures reply.Success? ==> (r.Success? <==> parse(Clean(reply.value)).Some?)
    ensures reply.Success? && r.Success? ==> r.value == parse(Clean(reply.value)).value
    ensures reply.Success? && r.Failure? ==> r.error == MalformedJson
  {
    match reply
    case Failure(e) => Failure(e)
    case Success(text) =>
      match parse(Clean(text))
      case Some(json) => Success(json)
      case None => Failure(MalformedJson)
  }

  /** Fencing a JSON text does not change what the step returns for it. */
  lemma DecorationIsTransparent(j: string, parse: string -> Option<JsonValue>)
    requires MarkerFree(j) && Tight(j)
    ensures GetChequeInfo(Success(JsonFence + j + "\n" + Fence), parse) == GetChequeInfo(Success(j), parse)
  {
    FencedJsonCleansToItself(j);
    PlainTextOnlyTrimmed(j);
    TrimTight(j);
  }
}
