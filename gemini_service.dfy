/**
  The code-generation client: the key check, the extraction of the first
  fenced `r` block from the model's reply by the pattern
  /```r\s*([\s\S]*?)\s*```/, the trimmed fallback, and the wrapping of
  provider failures. The provider itself is a parameter: its reply is given.
 */
module GeminiService {
  import opened Wrappers
  import opened Text

  /** Three backticks start at i. */
  predicate FenceAt(s: string, i: int) {
    0 <= i && i + 3 <= |s| && s[i] == '`' && s[i + 1] == '`' && s[i + 2] == '`'
  }

  /** The opening marker "```r" starts at i. */
  predicate OpenAt(s: string, i: int) {
    FenceAt(s, i) && i + 4 <= |s| && s[i + 3] == 'r'
  }

  /**
    One way the pattern can match: "```r" at start, the first `\s*` over
    [start + 4, groupStart), the captured group [groupStart, groupEnd), the
    second `\s*` over [groupEnd, close) and the closing "```" at close.
   */
  datatype Match = Match(start: nat, groupStart: nat, groupEnd: nat, close: nat)

  predicate IsMatch(s: string, m: Match) {
    && OpenAt(s, m.start)
    && m.start + 4 <= m.groupStart <= m.groupEnd <= m.close
    && FenceAt(s, m.close)
    && AllSpace(s, m.start + 4, m.groupStart)
    && AllSpace(s, m.groupEnd, m.close)
  }

  /**
    The order in which an ECMAScript backtracking matcher tries matches: the
    leftmost start first; at one start, the greedy first `\s*` longest first,
    then the lazy group shortest first, then the greedy second `\s*` longest first.
    The match `exec` reports is the one preferred to every other.
   */
  predicate Preferred(m: Match, n: Match) {
    || m.start < n.start
    || (m.start == n.start && m.groupStart > n.groupStart)
    || (m.start == n.start && m.groupStart == n.groupStart && m.groupEnd < n.groupEnd)
    || (m.start == n.start && m.groupStart == n.groupStart && m.groupEnd == n.groupEnd && m.close >= n.close)
  }

  /** The first opening marker at or after from. */
  function FindOpen(s: string, from: nat): (r: Option<nat>)
    requires from <= |s|
    ensures r.Some? ==> from <= r.value && OpenAt(s, r.value)
    ensures r.Some? ==> forall i :: from <= i < r.value ==> !OpenAt(s, i)
    ensures r.None? ==> forall i :: from <= i ==> !OpenAt(s, i)
    decreases |s| - from
  {
    if from == |s| then None else if OpenAt(s, from) then Some(from) else FindOpen(s, from + 1)
  }

  /** The first three backticks at or after from. */
  function FindFence(s: string, from: nat): (r: Option<nat>)
    requires from <= |s|
    ensures r.Some? ==> from <= r.value && FenceAt(s, r.value)
    ensures r.Some? ==> forall i :: from <= i < r.value ==> !FenceAt(s, i)
    ensures r.None? ==> forall i :: from <= i ==> !FenceAt(s, i)
    decreases |s| - from
  {
    if from == |s| then None else if FenceAt(s, from) then Some(from) else FindFence(s, from + 1)
  }

  /** The match `String.prototype.match` finds, computed by scanning. */
  function FirstMatch(s: string): (r: Option<Match>)
    ensures r.Some? ==> IsMatch(s, r.value)
  {
    match FindOpen(s, 0)
    case None => None
    case Some(p) =>
      var a := SkipSpace(s, p + 4);
      match FindFence(s, a)
      case None => None
      case Some(c) => Some(Match(p, a, BackSpace(s, a, c), c))
  }

  /** The scan finds the match the backtracking matcher reports. */
  lemma FirstMatchPreferred(s: string, n: Match)
    requires FirstMatch(s).Some? && IsMatch(s, n)
    ensures Preferred(FirstMatch(s).value, n)
  {
    var m := FirstMatch(s).value;
    var p, a, b, c := m.start, m.groupStart, m.groupEnd, m.close;
    // The first \s* cannot run past the first non-space character after the marker.
    assert n.start == p ==> n.groupStart <= a;
    if n.start == p && n.groupStart == a {
      // The closing fence of n is at or after the first fence from a, so the
      // trailing white space of n reaches back no further than that of m.
      assert n.close >= c;
      assert n.groupEnd >= b;
      assert n.groupEnd == b ==> n.close <= c;
    }
  }

  /** When the scan finds nothing, the pattern matches nowhere. */
  lemma FirstMatchComplete(s: string, n: Match)
    requires FirstMatch(s).None?
    ensures !IsMatch(s, n)
  {
    if FindOpen(s, 0).Some? {
      var p := FindOpen(s, 0).value;
      var a := SkipSpace(s, p + 4);
      // No fence at or after a; a marker or a fence before a would be white space.
      assert forall i :: p + 4 <= i < a ==> !FenceAt(s, i);
    }
  }

  /**
    The extraction step of `generateRCode`: the captured group of the first
    match, trimmed, when it is non-empty; otherwise the whole reply, trimmed.
   */
  function ExtractRCode(text: string): (r: string)
    ensures IsTrimmed(r)
  {
    match FirstMatch(text)
    case Some(m) =>
      if m.groupStart < m.groupEnd then Trim(text[m.groupStart..m.groupEnd]) else Trim(text)
    case None => Trim(text)
  }

  /** The group of the reported match is already free of white space at both ends. */
  lemma FirstGroupTrimmed(s: string)
    requires FirstMatch(s).Some?
    ensures IsTrimmed(s[FirstMatch(s).value.groupStart..FirstMatch(s).value.groupEnd])
  {
    var m := FirstMatch(s).value;
    var g := s[m.groupStart..m.groupEnd];
    if |g| > 0 {
      assert g[0] == s[m.groupStart];
      assert g[|g| - 1] == s[m.groupEnd - 1];
    }
  }

  /**
    A reply whose reported match (the one preferred to every other) has a
    non-empty group yields exactly that group; an empty group falls back to
    the whole reply, trimmed.
   */
  lemma ExtractUsesReportedMatch(text: string, m: Match)
    requires IsMatch(text, m)
    requires forall n :: IsMatch(text, n) ==> Preferred(m, n)
    ensures m.groupStart < m.groupEnd ==> ExtractRCode(text) == text[m.groupStart..m.groupEnd]
    ensures m.groupStart == m.groupEnd ==> ExtractRCode(text) == Trim(text)
  {
    if FirstMatch(text).None? {
      FirstMatchComplete(text, m);
    } else {
      var f := FirstMatch(text).value;
      FirstMatchPreferred(text, m);
      assert Preferred(f, m) && Preferred(m, f);
      assert f == m;
      FirstGroupTrimmed(text);
      TrimOfTrimmed(text[m.groupStart..m.groupEnd]);
    }
  }

  /** Without any match the whole reply is returned, trimmed. */
  lemma ExtractFallback(text: string)
    requires forall n :: !IsMatch(text, n)
    ensures ExtractRCode(text) == Trim(text)
  {
  }

  /** A reply with no "```r" marker at all is only trimmed. */
  lemma ExtractWithoutMarker(text: string)
    requires forall i :: 0 <= i < |text| ==> !OpenAt(text, i)
    ensures ExtractRCode(text) == Trim(text)
  {
    forall n ensures !IsMatch(text, n) {
      assert OpenAt(text, n.start) ==> n.start < |text|;
    }
    ExtractFallback(text);
  }

  /** A result that contains no opening marker is a fixed point of the extraction. */
  lemma ExtractFixedPoint(text: string)
    requires forall i :: 0 <= i < |ExtractRCode(text)| ==> !OpenAt(ExtractRCode(text), i)
    ensures ExtractRCode(ExtractRCode(text)) == ExtractRCode(text)
  {
    var r := ExtractRCode(text);
    ExtractWithoutMarker(r);
    TrimOfTrimmed(r);
  }

  /** What the provider call produced: a reply text, or a thrown value. */
  datatype Thrown = ErrorObject(message: string) | OtherValue(rendered: string)

  datatype ProviderReply = Responded(text: string) | Threw(thrown: Thrown)

  const MissingKeyMessage: string := "Gemini API key is not configured."
  const ApiErrorPrefix: string := "Gemini API Error: "
  const UnknownErrorMessage: string := "An unknown error occurred with the Gemini API."

  /** `!apiKey` is false: the key is present and not the empty string. */
  predicate KeyConfigured(apiKey: Option<string>) {
    apiKey.Some? && apiKey.value != ""
  }

  /**
    `generateRCode`: resolves with the extracted code or rejects with an
    `Error`. Without a key it rejects before the provider is consulted, so
    the reply plays no part.
   */
  function GenerateRCode(apiKey: Option<string>, reply: ProviderReply): (r: Result<string, Thrown>)
    ensures !KeyConfigured(apiKey) ==> r == Failure(ErrorObject(MissingKeyMessage))
    ensures KeyConfigured(apiKey) && reply.Responded? ==> r == Success(ExtractRCode(reply.text))
    ensures KeyConfigured(apiKey) && reply.Threw? && reply.thrown.ErrorObject? ==>
      r == Failure(ErrorObject(ApiErrorPrefix + reply.thrown.message))
    ensures KeyConfigured(apiKey) && reply.Threw? && reply.thrown.OtherValue? ==>
      r == Failure(ErrorObject(UnknownErrorMessage))
    ensures r.Success? ==> IsTrimmed(r.value)
    ensures r.Failure? ==> r.error.ErrorObject?
  {
    if !KeyConfigured(apiKey) then Failure(ErrorObject(MissingKeyMessage))
    else match reply
      case Responded(text) => Success(ExtractRCode(text))
      case Threw(ErrorObject(message)) => Failure(ErrorObject(ApiErrorPrefix + message))
      case Threw(OtherValue(_)) => Failure(ErrorObject(UnknownErrorMessage))
  }

  /** Without a key the outcome does not depend on the provider at all. */
  lemma NoKeyNoProviderCall(apiKey: Option<string>, r1: ProviderReply, r2: ProviderReply)
    requires !KeyConfigured(apiKey)
    ensures GenerateRCode(apiKey, r1) == GenerateRCode(apiKey, r2)
  {
  }
}
