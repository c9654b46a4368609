/**
 * The two JavaScript string builtins the core relies on: `String.prototype.trim`
 * and `String.prototype.split` with a one-character separator.
 */
module JsString {

  /** ECMAScript WhiteSpace and LineTerminator code points: what `trim` removes. */
  predicate IsWhitespace(c: char) {
    || c == '\t' || c == '\U{000B}' || c == '\U{000C}' || c == ' ' || c == '\U{00A0}' || c == '\U{FEFF}'
    || c == '\n' || c == '\r' || c == '\U{2028}' || c == '\U{2029}'
    || c == '\U{1680}' || ('\U{2000}' <= c <= '\U{200A}') || c == '\U{202F}' || c == '\U{205F}' || c == '\U{3000}'
  }

  predicate AllWhitespace(s: string) {
    forall k | 0 <= k < |s| :: IsWhitespace(s[k])
  }

  /** Neither the first nor the last character is whitespace (vacuous for the empty string). */
  predicate Tight(s: string) {
    s == [] || (!IsWhitespace(s[0]) && !IsWhitespace(s[|s| - 1]))
  }

  predicate StartsWith(s: string, prefix: string) {
    |prefix| <= |s| && s[..|prefix|] == prefix
  }

  /** Scanning forward from `i`, the index of the first character that is not whitespace (|s| if none). */
  function SkipForward(s: string, i: nat): (n: nat)
    requires i <= |s|
    ensures i <= n <= |s|
    ensures forall k | i <= k < n :: IsWhitespace(s[k])
    ensures n < |s| ==> !IsWhitespace(s[n])
    decreases |s| - i
  {
    if i < |s| && IsWhitespace(s[i]) then SkipForward(s, i + 1) else i
  }

  /** Scanning backward from `j` down to `lo`, the end of the last character that is not whitespace (`lo` if none). */
  function SkipBackward(s: string, lo: nat, j: nat): (n: nat)
    requires lo <= j <= |s|
    ensures lo <= n <= j
    ensures forall k | n <= k < j :: IsWhitespace(s[k])
    ensures n > lo ==> !IsWhitespace(s[n - 1])
    decreases j
  {
    if j > lo && IsWhitespace(s[j - 1]) then SkipBackward(s, lo, j - 1) else j
  }

  /** Where the text kept by `trim` starts: the length of the leading whitespace. */
  function TrimStartIndex(s: string): (n: nat)
    ensures n <= |s|
    ensures forall k | 0 <= k < n :: IsWhitespace(s[k])
    ensures n < |s| ==> !IsWhitespace(s[n])
  {
    SkipForward(s, 0)
  }

  /**
   * `s.trim()`: the result is the infix of `s` left after cutting whitespace at both
   * ends, and it has no whitespace at either end.
   */
  function Trim(s: string): (r: string)
    ensures |r| <= |s|
    ensures Tight(r)
    ensures var lead := TrimStartIndex(s);
      && lead + |r| <= |s| && r == s[lead..lead + |r|]
      && AllWhitespace(s[..lead]) && AllWhitespace(s[lead + |r|..])
  {
    var lo := SkipForward(s, 0);
    var hi := SkipBackward(s, lo, |s|);
    s[lo..hi]
  }

  /** The forward scan stops at the first character that is not whitespace, wherever that is proved to be. */
  lemma SkipForwardAt(s: string, i: nat, j: nat)
    requires i <= j <= |s|
    requires forall k | i <= k < j :: IsWhitespace(s[k])
    requires j < |s| ==> !IsWhitespace(s[j])
    ensures SkipForward(s, i) == j
  {
  }

  lemma SkipBackwardAt(s: string, lo: nat, j: nat, e: nat)
    requires lo <= e <= j <= |s|
    requires forall k | e <= k < j :: IsWhitespace(s[k])
    requires e > lo ==> !IsWhitespace(s[e - 1])
    ensures SkipBackward(s, lo, j) == e
  {
  }

  /**
   * Trimming keeps everything between two characters that are not whitespace: such a
   * position `p` lies inside the kept range and keeps its character.
   */
  lemma TrimKeepsBetween(s: string, i: nat, j: nat, p: nat)
    requires i <= p <= j < |s| && !IsWhitespace(s[i]) && !IsWhitespace(s[j])
    ensures var lead := TrimStartIndex(s);
      && lead <= p < lead + |Trim(s)|
      && Trim(s)[p - lead] == s[p]
  {
    var lead := TrimStartIndex(s);
    var r := Trim(s);
    assert forall k | 0 <= k < lead :: s[..lead][k] == s[k];
    assert forall k | lead + |r| <= k < |s| :: s[lead + |r|..][k - lead - |r|] == s[k];
  }

  /** Trimming a string padded with whitespace on both sides gives back the tight middle part. */
  lemma TrimPadded(lead: string, middle: string, trail: string)
    requires AllWhitespace(lead) && AllWhitespace(trail) && Tight(middle)
    ensures Trim(lead + middle + trail) == middle
  {
    var s := lead + middle + trail;
    var e := |lead| + |middle|;
    if middle == [] {
      assert forall k | 0 <= k < |s| :: IsWhitespace(s[k]) by {
        forall k | 0 <= k < |s|
          ensures IsWhitespace(s[k])
        {
          if k < |lead| { assert s[k] == lead[k]; } else { assert s[k] == trail[k - |lead|]; }
        }
      }
      SkipForwardAt(s, 0, |s|);
      SkipBackwardAt(s, |s|, |s|, |s|);
    } else {
      assert forall k | 0 <= k < |lead| :: IsWhitespace(s[k]) by {
        forall k | 0 <= k < |lead|
          ensures IsWhitespace(s[k])
        {
          assert s[k] == lead[k];
        }
      }
      assert s[|lead|] == middle[0];
      SkipForwardAt(s, 0, |lead|);
      assert forall k | e <= k < |s| :: IsWhitespace(s[k]) by {
        forall k | e <= k < |s|
          ensures IsWhitespace(s[k])
        {
          assert s[k] == trail[k - e];
        }
      }
      assert s[e - 1] == middle[|middle| - 1];
      SkipBackwardAt(s, |lead|, |s|, e);
      assert s[|lead|..e] == middle;
    }
  }

  /** A string with no whitespace at its ends is its own trim; in particular trim is idempotent. */
  lemma TrimTight(s: string)
    requires Tight(s)
    ensures Trim(s) == s
  {
    TrimPadded([], s, []);
    assert [] + s + [] == s;
  }

  lemma TrimIdempotent(s: string)
    ensures Trim(Trim(s)) == Trim(s)
  {
    TrimTight(Trim(s));
  }

  /** Index of the first occurrence of `c` in `s`. */
  function IndexOf(s: string, c: char): (i: nat)
    requires c in s
    ensures i < |s| && s[i] == c && c !in s[..i]
  {
    if s[0] == c then 0 else
      assert s == [s[0]] + s[1..];
      var j := IndexOf(s[1..], c);
      assert s[..j + 1] == [s[0]] + s[1..][..j];
      j + 1
  }

  /** `s.split(sep)`: always at least one part, and no part contains the separator. */
  function Split(s: string, sep: char): (parts: seq<string>)
    ensures |parts| >= 1
    ensures forall k | 0 <= k < |parts| :: sep !in parts[k]
    decreases |s|
  {
    if sep !in s then [s] else
      var i := IndexOf(s, sep);
      [s[..i]] + Split(s[i + 1..], sep)
  }

  /** `parts.join(sep)`. */
  function Join(parts: seq<string>, sep: char): string
    requires |parts| >= 1
  {
    if |parts| == 1 then parts[0] else parts[0] + [sep] + Join(parts[1..], sep)
  }

  lemma {:induction false} JoinSplit(s: string, sep: char)
    ensures Join(Split(s, sep), sep) == s
    decreases |s|
  {
    if sep in s {
      var i := IndexOf(s, sep);
      var rest := Split(s[i + 1..], sep);
      assert Split(s, sep) == [s[..i]] + rest;
      assert ([s[..i]] + rest)[1..] == rest;
      JoinSplit(s[i + 1..], sep);
      assert s == s[..i] + [sep] + s[i + 1..];
    }
  }

  /** Splitting a join of separator-free parts recovers the parts. */
  lemma {:induction false} SplitJoin(parts: seq<string>, sep: char)
    requires |parts| >= 1
    requires forall k | 0 <= k < |parts| :: sep !in parts[k]
    ensures Split(Join(parts, sep), sep) == parts
    decreases |parts|
  {
    if |parts| > 1 {
      var s := Join(parts, sep);
      var head := parts[0];
      var tail := Join(parts[1..], sep);
      assert s == head + [sep] + tail;
      assert s[|head|] == sep;
      assert s[..|head|] == head;
      var i := IndexOf(s, sep);
      assert i == |head|;
      assert s[i + 1..] == tail;
      SplitJoin(parts[1..], sep);
      assert [head] + parts[1..] == parts;
    }
  }
}
