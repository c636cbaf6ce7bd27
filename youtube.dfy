/**
 * `extractYouTubeVideoId` (app/api/ingest/route.ts): four URL shapes, each
 * a literal marker followed by an eleven-character video id, tried in a
 * fixed order with the first match winning.
 */
module YouTube {
  import opened Wrappers

  /** How many characters a video id has. */
  const IdLength: nat := 11

  /**
   * The literal part of each pattern, in the order they are tried:
   * `watch?v=`, `youtu.be/`, `embed/`, `shorts/`.
   */
  const Markers: seq<string> :=
    ["youtube.com/watch?v=", "youtu.be/", "youtube.com/embed/", "youtube.com/shorts/"]

  /** `[a-zA-Z0-9_-]`. */
  predicate IsIdChar(ch: char) {
    ('a' <= ch <= 'z') || ('A' <= ch <= 'Z') || ('0' <= ch <= '9') || ch == '_' || ch == '-'
  }

  /** The marker `m` starts at index `i` of `url` and is followed by eleven id characters. */
  predicate MatchesAt(url: string, m: string, i: int) {
    && 0 <= i && i + |m| + IdLength <= |url|
    && url[i..i + |m|] == m
    && forall k :: i + |m| <= k < i + |m| + IdLength ==> IsIdChar(url[k])
  }

  /**
   * Where the regular-expression search for marker `m` succeeds, scanning
   * from index `i`: the leftmost index at which it matches, if any.
   */
  function FirstMatchFrom(url: string, m: string, i: nat): (r: Option<nat>)
    ensures r.Some? ==> i <= r.value && MatchesAt(url, m, r.value)
    ensures r.Some? ==> forall k :: i <= k < r.value ==> !MatchesAt(url, m, k)
    ensures r.None? ==> forall k :: i <= k ==> !MatchesAt(url, m, k)
    decreases |url| - i
  {
    if i + |m| + IdLength > |url| then None
    else if MatchesAt(url, m, i) then Some(i)
    else FirstMatchFrom(url, m, i + 1)
  }

  /** `url.match(pattern)` followed by `match[1]`: the id after the leftmost match of the marker. */
  function PatternMatch(url: string, m: string): Option<string> {
    match FirstMatchFrom(url, m, 0)
    case None => None
    case Some(i) => Some(url[i + |m|..i + |m| + IdLength])
  }

  /** The first of the markers `ms` that matches decides the id. */
  function FirstPatternMatch(url: string, ms: seq<string>): Option<string> {
    if ms == [] then None
    else match PatternMatch(url, ms[0])
      case Some(id) => Some(id)
      case None => FirstPatternMatch(url, ms[1..])
  }

  /** The video id `extractYouTubeVideoId(url)` returns, `None` standing for `null`. */
  function VideoId(url: string): Option<string> {
    FirstPatternMatch(url, Markers)
  }

  /** `extractYouTubeVideoId`: the patterns are tried in order and the first match is returned. */
  method ExtractYouTubeVideoId(url: string) returns (id: Option<string>)
    ensures id == VideoId(url)
  {
    for k := 0 to |Markers|
      invariant FirstPatternMatch(url, Markers[k..]) == VideoId(url)
    {
      assert Markers[k..][1..] == Markers[k + 1..];
      var m := PatternMatch(url, Markers[k]);
      if m.Some? {
        return m;
      }
    }
    return None;
  }

  /** None of the markers `ms` matches anywhere in `url`. */
  ghost predicate NoMarkerMatches(url: string, ms: seq<string>) {
    forall n, i :: 0 <= n < |ms| ==> !MatchesAt(url, ms[n], i)
  }

  /**
   * Marker `n` of `ms` matches at index `i`, no earlier marker matches
   * anywhere, and marker `n` matches nowhere before `i`.
   */
  ghost predicate FirstMarkerAt(url: string, ms: seq<string>, n: int, i: int) {
    && 0 <= n < |ms|
    && MatchesAt(url, ms[n], i)
    && (forall n', j :: 0 <= n' < n ==> !MatchesAt(url, ms[n'], j))
    && (forall j :: 0 <= j < i ==> !MatchesAt(url, ms[n], j))
  }

  /** The search gives no id exactly when no marker matches anywhere. */
  lemma {:induction false} FirstPatternMatchNone(url: string, ms: seq<string>)
    ensures FirstPatternMatch(url, ms).None? <==> NoMarkerMatches(url, ms)
  {
    if ms != [] {
      var rest := ms[1..];
      FirstPatternMatchNone(url, rest);
      match FirstMatchFrom(url, ms[0], 0)
      case Some(i) =>
        assert MatchesAt(url, ms[0], i);
      case None =>
        assert FirstPatternMatch(url, ms) == FirstPatternMatch(url, rest);
        if NoMarkerMatches(url, rest) {
          forall n, i | 0 < n < |ms| ensures !MatchesAt(url, ms[n], i) {
            assert ms[n] == rest[n - 1];
          }
        } else {
          var n, i :| 0 <= n < |rest| && MatchesAt(url, rest[n], i);
          assert ms[n + 1] == rest[n];
        }
    }
  }

  /**
   * What the first matching marker gives: the eleven id characters that
   * follow the leftmost occurrence of that marker, no earlier marker
   * matching anywhere in the URL.
   */
  lemma {:induction false} FirstPatternMatchSome(url: string, ms: seq<string>)
    requires FirstPatternMatch(url, ms).Some?
    ensures exists n, i :: FirstMarkerAt(url, ms, n, i)
              && FirstPatternMatch(url, ms).value == url[i + |ms[n]|..i + |ms[n]| + IdLength]
  {
    var rest := ms[1..];
    match FirstMatchFrom(url, ms[0], 0)
    case Some(i) =>
      assert FirstMarkerAt(url, ms, 0, i);
    case None =>
      assert FirstPatternMatch(url, ms) == FirstPatternMatch(url, rest);
      FirstPatternMatchSome(url, rest);
      var n, i :| FirstMarkerAt(url, rest, n, i)
                  && FirstPatternMatch(url, rest).value == url[i + |rest[n]|..i + |rest[n]| + IdLength];
      assert ms[n + 1] == rest[n];
      forall n', j | 0 <= n' < n + 1 ensures !MatchesAt(url, ms[n'], j) {
        if n' > 0 {
          assert ms[n'] == rest[n' - 1];
        }
      }
      assert FirstMarkerAt(url, ms, n + 1, i);
  }

  /**
   * `extractYouTubeVideoId` returns exactly eleven characters from
   * `[a-zA-Z0-9_-]`, taken right after one of the markers, or `null` when
   * no marker followed by eleven such characters occurs.
   */
  lemma VideoIdShape(url: string)
    ensures VideoId(url).Some? ==> |VideoId(url).value| == IdLength
    ensures VideoId(url).Some? ==> forall k :: 0 <= k < IdLength ==> IsIdChar(VideoId(url).value[k])
    ensures VideoId(url).None? <==> NoMarkerMatches(url, Markers)
  {
    FirstPatternMatchNone(url, Markers);
    if VideoId(url).Some? {
      FirstPatternMatchSome(url, Markers);
      var n, i :| FirstMarkerAt(url, Markers, n, i)
            && VideoId(url).value == url[i + |Markers[n]|..i + |Markers[n]| + IdLength];
      forall k | 0 <= k < IdLength ensures IsIdChar(VideoId(url).value[k]) {
        assert VideoId(url).value[k] == url[i + |Markers[n]| + k];
      }
    }
  }

  /** A short link: the eleven characters after `youtu.be/` are the id. */
  lemma ShortLinkExample()
    ensures VideoId("youtu.be/dQw4w9WgXcQ?t=42") == Some("dQw4w9WgXcQ")
  {
    var url := "youtu.be/dQw4w9WgXcQ?t=42";
    assert FirstMatchFrom(url, Markers[0], 0).None?;
    assert url[0..9] == Markers[1];
    assert MatchesAt(url, Markers[1], 0);
    assert url[9..20] == "dQw4w9WgXcQ";
  }
}
