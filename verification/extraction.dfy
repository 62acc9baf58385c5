/** Locating a JSON payload inside a free-form model reply. The service tries
    three regular expressions in turn — a "```json" fence, a plain "```" fence,
    then a non-greedy bracket pair — and strips fence markers from the match
    with a global replace before handing the text to `JSON.parse`. */
module Extraction {
  import opened Wrappers
  import opened Text

  const JsonFenceOpen := "```json\n"
  const PlainFenceOpen := "```\n"
  const FenceClose := "\n```"

  /** A match of `open … close`: `open` at `start`, `close` at `closeAt`. */
  datatype Span = Span(start: nat, closeAt: nat)

  /** Regular-expression semantics of `/open([\s\S]*?)close/`: the leftmost start
      from which the pattern can match, and from there the nearest close. */
  ghost predicate IsLeftmostLazy(s: string, open: string, close: string, sp: Span) {
    && sp.start + |open| <= sp.closeAt
    && OccursAt(s, open, sp.start)
    && OccursAt(s, close, sp.closeAt)
    && (forall k: nat :: sp.start + |open| <= k < sp.closeAt ==> !OccursAt(s, close, k))
    && (forall i: nat, j: nat :: i < sp.start && OccursAt(s, open, i) && i + |open| <= j ==> !OccursAt(s, close, j))
  }

  /** The pattern matches nowhere in `s`. */
  ghost predicate NoMatch(s: string, open: string, close: string) {
    forall i: nat, j: nat :: OccursAt(s, open, i) && i + |open| <= j ==> !OccursAt(s, close, j)
  }

  /** Scanning implementation of the lazy match: the first `open`, then the first
      `close` after it. When the first `open` has no `close` after it, no later
      `open` can have one either. */
  function FindLazy(s: string, open: string, close: string): (r: Option<Span>)
    ensures r.Some? ==> IsLeftmostLazy(s, open, close, r.value)
    ensures r.None? ==> NoMatch(s, open, close)
  {
    match FindFrom(s, open, 0)
    case None => None
    case Some(i) =>
      match FindFrom(s, close, i + |open|)
      case None => None
      case Some(j) => Some(Span(i, j))
  }

  /** The matched text `match[0]`, markers included. */
  function MatchText(s: string, open: string, close: string): (r: Option<string>)
    ensures r.None? <==> NoMatch(s, open, close)
    ensures r.Some? ==> StartsWith(r.value, open) && EndsWith(r.value, close)
    ensures r.Some? ==> exists sp :: IsLeftmostLazy(s, open, close, sp) && r.value == s[sp.start..sp.closeAt + |close|]
  {
    match FindLazy(s, open, close)
    case None => None
    case Some(sp) =>
      var t := s[sp.start..sp.closeAt + |close|];
      assert t[..|open|] == s[sp.start..sp.start + |open|];
      assert t[|t| - |close|..] == s[sp.closeAt..sp.closeAt + |close|];
      Some(t)
  }

  /** `content.match(jsonFence) || content.match(plainFence) || content.match(fallback)`. */
  function Locate(content: string, open: string, close: string): (r: Option<string>)
    ensures !NoMatch(content, JsonFenceOpen, FenceClose) ==> r == MatchText(content, JsonFenceOpen, FenceClose)
    ensures NoMatch(content, JsonFenceOpen, FenceClose) && !NoMatch(content, PlainFenceOpen, FenceClose) ==>
              r == MatchText(content, PlainFenceOpen, FenceClose)
    ensures NoMatch(content, JsonFenceOpen, FenceClose) && NoMatch(content, PlainFenceOpen, FenceClose) ==>
              r == MatchText(content, open, close)
  {
    match MatchText(content, JsonFenceOpen, FenceClose)
    case Some(t) => Some(t)
    case None =>
      match MatchText(content, PlainFenceOpen, FenceClose)
      case Some(t) => Some(t)
      case None => MatchText(content, open, close)
  }

  /** `text.replace(/```json\n|```\n|```/g, '')`: scanning left to right, each
      position first tries the longest marker, and removed markers are skipped. */
  function StripFences(s: string): string
    decreases |s|
  {
    if |s| == 0 then ""
    else if StartsWith(s, "```json\n") then StripFences(s[8..])
    else if StartsWith(s, "```\n") then StripFences(s[4..])
    else if StartsWith(s, "```") then StripFences(s[3..])
    else [s[0]] + StripFences(s[1..])
  }

  /** `s` contains no run of three backticks. */
  ghost predicate NoTripleBacktick(s: string) {
    forall k: nat :: !OccursAt(s, "```", k)
  }

  /** The global replace leaves no "```" behind, even where removing a marker
      brings backticks together; and a stripped text only starts with backticks
      that the input started with. */
  lemma {:induction false} StripFencesRemovesAll(s: string)
    ensures NoTripleBacktick(StripFences(s))
    ensures StartsWith(StripFences(s), "`") ==> StartsWith(s, "`")
    ensures StartsWith(StripFences(s), "``") ==> StartsWith(s, "``")
    decreases |s|
  {
    if |s| == 0 {
    } else if StartsWith(s, "```json\n") {
      StripFencesRemovesAll(s[8..]);
    } else if StartsWith(s, "```\n") {
      StripFencesRemovesAll(s[4..]);
    } else if StartsWith(s, "```") {
      StripFencesRemovesAll(s[3..]);
    } else {
      var rest := StripFences(s[1..]);
      StripFencesRemovesAll(s[1..]);
      StripKeepsChar(s);
      var r := [s[0]] + rest;
      if |s| >= 3 {
        assert s[..3] == [s[0]] + s[1..][..2];
      }
      forall k: nat
        ensures !OccursAt(r, "```", k)
      {
        if k + 3 <= |r| {
          if k == 0 {
            assert r[..3] == [s[0]] + rest[..2];
          } else {
            assert r[k..k + 3] == rest[k - 1..k + 2];
            assert !OccursAt(rest, "```", k - 1);
          }
        }
      }
      if StartsWith(r, "``") {
        assert StartsWith(rest, "`") by { assert rest[..1] == r[1..2]; }
        assert s[..2] == [s[0]] + s[1..][..1];
      }
    }
  }

  /** Text without a "```" run is left unchanged by the strip. */
  lemma {:induction false} StripFencesIdentity(s: string)
    requires NoTripleBacktick(s)
    ensures StripFences(s) == s
    decreases |s|
  {
    if |s| > 0 {
      assert !OccursAt(s, "```", 0);
      StripKeepsChar(s);
      forall k: nat
        ensures !OccursAt(s[1..], "```", k)
      {
        if k + 3 <= |s| - 1 {
          assert s[1..][k..k + 3] == s[k + 1..k + 4];
          assert !OccursAt(s, "```", k + 1);
        }
      }
      StripFencesIdentity(s[1..]);
    }
  }

  /** Stripping twice is the same as stripping once. */
  lemma StripFencesIdempotent(s: string)
    ensures StripFences(StripFences(s)) == StripFences(s)
  {
    StripFencesRemovesAll(s);
    StripFencesIdentity(StripFences(s));
  }

  /** Where no "```" starts, no marker starts, and the character is kept. */
  lemma StripKeepsChar(s: string)
    requires |s| > 0 && !StartsWith(s, "```")
    ensures StripFences(s) == [s[0]] + StripFences(s[1..])
  {
    NoMarkerWithoutTicks(s);
  }

  /** Both fence openers begin with "```". */
  lemma NoMarkerWithoutTicks(s: string)
    requires !StartsWith(s, "```")
    ensures !StartsWith(s, "```json\n") && !StartsWith(s, "```\n")
  {
    assert |s| >= 8 ==> s[..8][..3] == s[..3];
    assert "```json\n"[..3] == "```";
    assert |s| >= 4 ==> s[..4][..3] == s[..3];
    assert "```\n"[..3] == "```";
  }

  /** A whole "```json" block whose body has no backticks strips to its body and
      the newline that preceded the closing fence. */
  lemma JsonFenceStripsToBody(body: string)
    requires forall i :: 0 <= i < |body| ==> body[i] != '`'
    ensures StripFences(JsonFenceOpen + (body + FenceClose)) == body + "\n"
  {
    var t := JsonFenceOpen + (body + FenceClose);
    assert t[..8] == JsonFenceOpen;
    StripJsonMarker(t);
    assert t[8..] == body + FenceClose;
    StripTail(body);
  }

  /** In a "```json" block whose body has no backticks, the first closing
      fence after the opening one is the block's own. */
  lemma JsonBlockCloses(body: string)
    requires forall i :: 0 <= i < |body| ==> body[i] != '`'
    ensures FindFrom(JsonFenceOpen + (body + FenceClose), FenceClose, 8) == Some(8 + |body|)
  {
    var s := JsonFenceOpen + (body + FenceClose);
    var n := 8 + |body|;
    assert s[n..n + 4] == FenceClose;
    forall k: nat | 8 <= k < n
      ensures !OccursAt(s, FenceClose, k)
    {
      NoCloseInsideBlock(body, k);
    }
    FirstOccurrence(s, FenceClose, 8, n);
  }

  /** Inside the block the character after any position is not a backtick,
      so the closing fence cannot start there. */
  lemma NoCloseInsideBlock(body: string, k: nat)
    requires forall i :: 0 <= i < |body| ==> body[i] != '`'
    requires 8 <= k < 8 + |body|
    ensures !OccursAt(JsonFenceOpen + (body + FenceClose), FenceClose, k)
  {
    var s := JsonFenceOpen + (body + FenceClose);
    assert s[k + 1] != '`' by {
      if k + 1 < 8 + |body| { assert s[k + 1] == body[k - 7]; } else { assert s[k + 1] == '\n'; }
    }
    assert k + 4 <= |s| ==> s[k..k + 4][1] == s[k + 1];
  }

  /** `indexOf` answers the first occurrence at or after `from`. */
  lemma FirstOccurrence(s: string, p: string, from: nat, j: nat)
    requires from <= j && OccursAt(s, p, j)
    requires forall k: nat :: from <= k < j ==> !OccursAt(s, p, k)
    ensures FindFrom(s, p, from) == Some(j)
  {
    var r := FindFrom(s, p, from);
    assert r.Some?;
  }

  /** Such a block is matched whole by the first pattern tried. */
  lemma JsonBlockLocated(body: string, open: string, close: string)
    requires forall i :: 0 <= i < |body| ==> body[i] != '`'
    ensures Locate(JsonFenceOpen + (body + FenceClose), open, close) == Some(JsonFenceOpen + (body + FenceClose))
  {
    var s := JsonFenceOpen + (body + FenceClose);
    var n := 8 + |body|;
    assert OccursAt(s, JsonFenceOpen, 0) by { assert s[0..8] == JsonFenceOpen; }
    assert FindFrom(s, JsonFenceOpen, 0) == Some(0);
    JsonBlockCloses(body);
    assert FindLazy(s, JsonFenceOpen, FenceClose) == Some(Span(0, n));
    assert s[0..n + 4] == s;
  }

  /** A leading "```json\n" marker is removed whole. */
  lemma StripJsonMarker(s: string)
    requires StartsWith(s, JsonFenceOpen)
    ensures StripFences(s) == StripFences(s[8..])
  {
  }

  lemma {:induction false} StripTail(body: string)
    requires forall i :: 0 <= i < |body| ==> body[i] != '`'
    ensures StripFences(body + FenceClose) == body + "\n"
    decreases |body|
  {
    var t := body + FenceClose;
    assert !StartsWith(t, "```") by { assert t[0] != '`'; }
    StripKeepsChar(t);
    if |body| == 0 {
      StripBareFence();
    } else {
      assert t[1..] == body[1..] + FenceClose;
      StripTail(body[1..]);
    }
  }

  /** A bare "```" is removed whole. */
  lemma StripBareFence()
    ensures StripFences("```") == ""
  {
    assert StartsWith("```", "```");
    assert StripFences("```"[3..]) == "";
  }
}
