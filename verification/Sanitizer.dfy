/**
 The log sanitizer as a whole: one pass that copies characters and replaces tokens. The
 theorems say which positions of the text can never reach the log.
 */
module Sanitizer {
  import opened Wrappers
  import opened TokenScan

  /** The first matcher that fires at a position, in the order they are tried. */
  function MatchAt(c: string, i: nat, mask: string -> string): (r: Option<Token>)
    requires i < |c|
    ensures r.Some? ==> i < r.value.end <= |c|
  {
    if UrlToken(c, i, mask).Some? then UrlToken(c, i, mask)
    else if BracketToken(c, i, mask).Some? then BracketToken(c, i, mask)
    else if Ipv4Token(c, i, mask).Some? then Ipv4Token(c, i, mask)
    else HostnameToken(c, i, mask)
  }

  /** What is written for one step at `i`, and where the next one starts. */
  function StepText(c: string, i: nat, matched: Option<Token>): string
    requires i < |c|
  {
    if matched.Some? then matched.value.text else [c[i]]
  }

  function StepEnd(i: nat, matched: Option<Token>): nat { if matched.Some? then matched.value.end else i + 1 }

  /** What is written for the text from `i` on. */
  function Output(c: string, i: nat, mask: string -> string): string
    requires i <= |c|
    decreases |c| - i
  {
    if i == |c| then ""
    else
      var matched := MatchAt(c, i, mask);
      StepText(c, i, matched) + Output(c, StepEnd(i, matched), mask)
  }

  method FirstMatch(c: string, i: nat, mask: string -> string) returns (r: Option<Token>)
    requires i < |c|
    ensures r == MatchAt(c, i, mask)
  {
    r := MatchUrlAt(c, i, mask);
    if r.None? {
      r := MatchBracketedIpv6At(c, i, mask);
    }
    if r.None? {
      r := MatchIpv4At(c, i, mask);
    }
    if r.None? {
      r := MatchHostnameAt(c, i, mask);
    }
  }

  /** One step of the scan: a token is replaced, or a character copied. */
  method ScanStep(text: string, i: nat, mask: string -> string, out: string) returns (next: nat, written: string)
    requires i < |text|
    ensures i < next <= |text| && written + Output(text, next, mask) == out + Output(text, i, mask)
  {
    var matched := FirstMatch(text, i, mask);
    next, written := StepEnd(i, matched), out + StepText(text, i, matched);
    Regroup(out, StepText(text, i, matched), Output(text, next, mask));
  }

  lemma Regroup(a: string, b: string, c: string)
    ensures (a + b) + c == a + (b + c)
  {
  }

  method SanitizeLogMessage(text: string, mask: string -> string) returns (out: string)
    ensures out == Output(text, 0, mask)
  {
    out := "";
    var i := 0;
    while i < |text|
      invariant i <= |text|
      invariant out + Output(text, i, mask) == Output(text, 0, mask)
    {
      i, out := ScanStep(text, i, mask, out);
    }
  }

  // ---------------------------------------------------------------- segments

  /** One step of the pass: a stretch of the text and what is written for it. */
  datatype Segment = Copied(at: nat) | Replaced(from: nat, to: nat, text: string)

  function Begin(s: Segment): nat { if s.Copied? then s.at else s.from }

  function End(s: Segment): nat { if s.Copied? then s.at + 1 else s.to }

  function Segments(c: string, i: nat, mask: string -> string): seq<Segment>
    requires i <= |c|
    decreases |c| - i
  {
    if i == |c| then []
    else
      var matched := MatchAt(c, i, mask);
      [if matched.Some? then Replaced(i, matched.value.end, matched.value.text) else Copied(i)]
      + Segments(c, StepEnd(i, matched), mask)
  }

  function Render(c: string, segments: seq<Segment>): string
    requires forall s <- segments :: End(s) <= |c|
  {
    if segments == [] then ""
    else
      var s := segments[0];
      assert s in segments && End(s) <= |c|;
      (if s.Copied? then [c[s.at]] else s.text) + Render(c, segments[1..])
  }

  /** The segments lie end to end from `i` to `end`. */
  predicate Tile(segments: seq<Segment>, i: nat, end: nat) {
    if segments == [] then i == end
    else Begin(segments[0]) == i < End(segments[0]) && Tile(segments[1..], End(segments[0]), end)
  }

  /** A copied character is where no matcher fired; a replaced stretch is what one matched. */
  predicate Justified(c: string, s: Segment, mask: string -> string) {
    && Begin(s) < End(s) <= |c|
    && match s
       case Copied(at) => MatchAt(c, at, mask) == None
       case Replaced(from, to, text) => MatchAt(c, from, mask) == Some(Token(to, text))
  }

  lemma {:induction false} SegmentsAreJustified(c: string, i: nat, mask: string -> string)
    requires i <= |c|
    ensures Tile(Segments(c, i, mask), i, |c|)
    ensures forall s <- Segments(c, i, mask) :: Justified(c, s, mask)
    decreases |c| - i
  {
    if i < |c| {
      var m := MatchAt(c, i, mask);
      var next := StepEnd(i, m);
      SegmentsAreJustified(c, next, mask);
      assert Segments(c, i, mask)[1..] == Segments(c, next, mask);
      assert Justified(c, Segments(c, i, mask)[0], mask);
    }
  }

  /** The pass partitions the text into copied characters and replaced tokens, and writes them in order. */
  lemma {:induction false} OutputRendersSegments(c: string, i: nat, mask: string -> string)
    requires i <= |c|
    ensures forall s <- Segments(c, i, mask) :: End(s) <= |c|
    ensures Output(c, i, mask) == Render(c, Segments(c, i, mask))
    decreases |c| - i
  {
    SegmentsAreJustified(c, i, mask);
    if i < |c| {
      var m := MatchAt(c, i, mask);
      var next := StepEnd(i, m);
      OutputRendersSegments(c, next, mask);
      assert Segments(c, i, mask)[1..] == Segments(c, next, mask);
    }
  }

  lemma {:induction false} TilesStartLater(segments: seq<Segment>, i: nat, end: nat)
    requires Tile(segments, i, end)
    ensures i <= end && forall s <- segments :: i <= Begin(s)
  {
    if segments != [] {
      TilesStartLater(segments[1..], End(segments[0]), end);
    }
  }

  /** Every position of the text lies in a segment. */
  lemma {:induction false} SegmentAt(segments: seq<Segment>, i: nat, end: nat, k: nat) returns (s: Segment)
    requires Tile(segments, i, end) && i <= k < end
    ensures s in segments && Begin(s) <= k < End(s)
  {
    if k < End(segments[0]) {
      s := segments[0];
    } else {
      s := SegmentAt(segments[1..], End(segments[0]), end, k);
    }
  }

  /** ... and in only one. */
  lemma {:induction false} OneSegment(segments: seq<Segment>, i: nat, end: nat, k: nat, r: Segment, s: Segment)
    requires Tile(segments, i, end)
    requires r in segments && Begin(r) <= k < End(r)
    requires s in segments && Begin(s) <= k < End(s)
    ensures r == s
  {
    TilesStartLater(segments[1..], End(segments[0]), end);
    assert segments == [segments[0]] + segments[1..];
    if r != segments[0] && s != segments[0] {
      OneSegment(segments[1..], End(segments[0]), end, k, r, s);
    }
  }

  // ------------------------------------------------------------ what stays hidden

  ghost predicate Covered(segments: seq<Segment>, k: nat) {
    exists s :: s in segments && s.Replaced? && s.from <= k < s.to
  }

  /** The position starts a replaced token, or lies inside one that began before it. */
  ghost predicate Hidden(c: string, k: nat, mask: string -> string) {
    Covered(Segments(c, 0, mask), k)
  }

  lemma CoveredOrCopied(segments: seq<Segment>, end: nat, k: nat)
    requires Tile(segments, 0, end) && k < end
    ensures Covered(segments, k) <==> Copied(k) !in segments
  {
    var s := SegmentAt(segments, 0, end, k);
    if Copied(k) in segments {
      forall r | r in segments && Begin(r) <= k < End(r) ensures r == Copied(k) {
        OneSegment(segments, 0, end, k, r, Copied(k));
      }
    }
  }

  /** A position is copied exactly when it is in no replaced token. */
  lemma HiddenOrCopied(c: string, k: nat, mask: string -> string)
    requires k < |c|
    ensures Hidden(c, k, mask) <==> Copied(k) !in Segments(c, 0, mask)
  {
    SegmentsAreJustified(c, 0, mask);
    CoveredOrCopied(Segments(c, 0, mask), |c|, k);
  }

  /** The token at `k` is replaced as one, unless one that began earlier runs over `k`. */
  ghost predicate ReplacedAt(c: string, k: nat, token: Token, mask: string -> string) {
    || Replaced(k, token.end, token.text) in Segments(c, 0, mask)
    || exists s :: s in Segments(c, 0, mask) && s.Replaced? && s.from < k < s.to
  }

  /** The segment at `k` says what matched there, if it begins there. */
  ghost predicate Told(segments: seq<Segment>, k: nat, matched: Option<Token>) {
    && (Copied(k) in segments ==> matched == None)
    && forall s :: s in segments && s.Replaced? && s.from == k ==> matched == Some(Token(s.to, s.text))
  }

  lemma ToldIsReplaced(segments: seq<Segment>, end: nat, k: nat, token: Token)
    requires Tile(segments, 0, end) && k < end && Told(segments, k, Some(token))
    ensures Covered(segments, k) && Copied(k) !in segments
    ensures || Replaced(k, token.end, token.text) in segments
            || exists s :: s in segments && s.Replaced? && s.from < k < s.to
  {
    var s := SegmentAt(segments, 0, end, k);
  }

  lemma SegmentsTell(c: string, k: nat, mask: string -> string)
    requires k < |c|
    ensures Tile(Segments(c, 0, mask), 0, |c|) && Told(Segments(c, 0, mask), k, MatchAt(c, k, mask))
  {
    SegmentsAreJustified(c, 0, mask);
    var segments := Segments(c, 0, mask);
    if Copied(k) in segments {
      assert Justified(c, Copied(k), mask);
    }
    forall s | s in segments && s.Replaced? && s.from == k ensures MatchAt(c, k, mask) == Some(Token(s.to, s.text)) {
      assert Justified(c, s, mask);
    }
  }

  /** Where a matcher fires the character is never copied. */
  lemma MatchedIsHidden(c: string, k: nat, mask: string -> string)
    requires k < |c| && MatchAt(c, k, mask).Some?
    ensures ReplacedAt(c, k, MatchAt(c, k, mask).value, mask)
    ensures Hidden(c, k, mask) && Copied(k) !in Segments(c, 0, mask)
  {
    SegmentsTell(c, k, mask);
    ToldIsReplaced(Segments(c, 0, mask), |c|, k, MatchAt(c, k, mask).value);
  }

  // ------------------------------------------------------------ what is written instead

  /** The stretch is written as the mask of exactly the characters it covers. */
  predicate MaskedWhole(c: string, s: Segment, mask: string -> string) {
    s.Replaced? && s.from < s.to <= |c| && s.text == mask(c[s.from..s.to])
  }

  /** It is written as its scheme followed by the mask of its end: the whole authority, or what follows its last `@`. */
  predicate MaskedUrl(c: string, s: Segment, mask: string -> string, scheme: string, host: nat) {
    && s.Replaced? && (scheme == "http://" || scheme == "https://")
    && s.from + |scheme| <= host <= s.to <= |c| && c[s.from..s.from + |scheme|] == scheme
    && '@' !in c[host..s.to] && (host == s.from + |scheme| || c[host - 1] == '@')
    && s.text == scheme + mask(c[host..s.to])
  }

  lemma TailOfSlice(c: string, begin: nat, end: nat) returns (host: nat)
    requires begin <= end <= |c|
    ensures begin <= host <= end && AfterLast(c[begin..end], '@') == c[host..end]
    ensures '@' !in c[host..end] && (host == begin || c[host - 1] == '@')
  {
    var authority := c[begin..end];
    var tail := AfterLast(authority, '@');
    AfterLastIsTail(authority, '@');
    if tail == authority {
      host := begin;
    } else {
      var head :| authority == head + ['@'] + tail;
      host := begin + |head| + 1;
      assert authority[|head|] == c[host - 1];
      assert c[host..end] == authority[|head| + 1..];
    }
  }

  lemma HostIsMasked(c: string, i: nat, scheme: string, t: Token, mask: string -> string) returns (host: nat)
    requires scheme == "http://" || scheme == "https://"
    requires i + |scheme| <= t.end <= |c| && c[i..i + |scheme|] == scheme
    requires t.text == scheme + mask(AfterLast(c[i + |scheme|..t.end], '@'))
    ensures MaskedUrl(c, Replaced(i, t.end, t.text), mask, scheme, host)
  {
    host := TailOfSlice(c, i + |scheme|, t.end);
  }

  lemma UrlIsMasked(c: string, i: nat, mask: string -> string) returns (scheme: string, host: nat)
    requires i < |c| && UrlToken(c, i, mask).Some?
    ensures var t := UrlToken(c, i, mask).value; MaskedUrl(c, Replaced(i, t.end, t.text), mask, scheme, host)
  {
    scheme := Scheme(c, i);
    host := HostIsMasked(c, i, scheme, UrlToken(c, i, mask).value, mask);
  }

  /** No token is written as it stands: every one is the mask of all it covers, or a URL cut down to its host. */
  lemma EveryTokenIsMasked(c: string, s: Segment, mask: string -> string)
    requires s in Segments(c, 0, mask) && s.Replaced?
    ensures MaskedWhole(c, s, mask) || exists scheme, host: nat :: MaskedUrl(c, s, mask, scheme, host)
  {
    SegmentsAreJustified(c, 0, mask);
    assert Justified(c, s, mask);
    MatchIsMasked(c, s.from, mask, Token(s.to, s.text));
  }

  lemma MatchIsMasked(c: string, i: nat, mask: string -> string, t: Token)
    requires i < |c| && MatchAt(c, i, mask) == Some(t)
    ensures var s := Replaced(i, t.end, t.text);
            MaskedWhole(c, s, mask) || exists scheme, host: nat :: MaskedUrl(c, s, mask, scheme, host)
  {
    if UrlToken(c, i, mask).Some? {
      var scheme, host := UrlIsMasked(c, i, mask);
    }
  }

  /** A dotted quad with its optional port, not glued to a longer word on either side. */
  ghost predicate QuadStands(c: string, k: nat, end: nat) {
    && k < end <= |c| && AtBoundary(c, k)
    && (exists dots: seq<nat> :: |dots| == 3 && DottedOctets(c, k, dots, end))
    && (PortEnd(c, end) == |c| || !IsHost(c[PortEnd(c, end)]))
  }

  /** The first character of such a quad is never written to the log; the mask of quad and port is. */
  lemma QuadsAreHidden(c: string, k: nat, end: nat, mask: string -> string)
    requires QuadStands(c, k, end)
    ensures Hidden(c, k, mask) && Copied(k) !in Segments(c, 0, mask)
    ensures ReplacedAt(c, k, Token(PortEnd(c, end), mask(c[k..PortEnd(c, end)])), mask)
  {
    Ipv4Grammar(c, k, end);
    OctetStartsWithDigit(c, k, 4);
    QuadComesFirst(c, k, mask);
    MatchedIsHidden(c, k, mask);
  }

  lemma QuadComesFirst(c: string, k: nat, mask: string -> string)
    requires k < |c| && IsDigit(c[k]) && Ipv4Token(c, k, mask).Some?
    ensures MatchAt(c, k, mask) == Ipv4Token(c, k, mask)
  {
    if Scheme(c, k) != "" {
      SchemeStartsWithH(c, k);
    }
  }

  lemma OctetStartsWithDigit(c: string, k: nat, n: nat)
    requires k < |c| && n >= 1 && QuadEnd(c, k, n).Some?
    ensures IsDigit(c[k])
  {
    OctetGrammar(c, k, OctetEnd(c, k).value);
    var octet := c[k..OctetEnd(c, k).value];
    assert octet[0] == c[k];
  }

  /** No token that began before `k` runs over it. */
  ghost predicate Reached(c: string, k: nat, mask: string -> string) {
    forall s :: s in Segments(c, 0, mask) && s.Replaced? && s.from < k ==> s.to <= k
  }

  lemma HiddenIffMatched(c: string, k: nat, mask: string -> string)
    requires k < |c| && Reached(c, k, mask)
    ensures Hidden(c, k, mask) <==> MatchAt(c, k, mask).Some?
  {
    SegmentsAreJustified(c, 0, mask);
    if MatchAt(c, k, mask).Some? {
      MatchedIsHidden(c, k, mask);
    }
  }

  lemma SchemeStartsWithH(c: string, k: nat)
    requires k < |c| && Scheme(c, k) != ""
    ensures c[k] == 'h'
  {
    assert c[k] == Scheme(c, k)[0];
  }

  lemma QuadMatches(c: string, k: nat, end: nat, mask: string -> string)
    requires k < |c| && AtBoundary(c, k) && Ipv4End(c, k) == Some(end)
    ensures IsDigit(c[k]) && (Ipv4Token(c, k, mask).Some? <==> QuadStands(c, k, end))
  {
    Ipv4Grammar(c, k, end);
    OctetStartsWithDigit(c, k, 4);
  }

  /**
   Exactly when a quad at a word boundary is hidden, if no earlier token runs over it: when it
   stands alone with its port, or when a longer host name starts there.
   */
  lemma QuadHiddenExactly(c: string, k: nat, end: nat, mask: string -> string)
    requires k < |c| && AtBoundary(c, k) && Ipv4End(c, k) == Some(end) && Reached(c, k, mask)
    ensures Hidden(c, k, mask) <==> QuadStands(c, k, end) || HostnameToken(c, k, mask).Some?
    ensures QuadStands(c, k, end) ==>
              Replaced(k, PortEnd(c, end), mask(c[k..PortEnd(c, end)])) in Segments(c, 0, mask)
  {
    QuadMatches(c, k, end, mask);
    HiddenIffMatched(c, k, mask);
    if QuadStands(c, k, end) {
      QuadsAreHidden(c, k, end, mask);
    }
    if Scheme(c, k) != "" {
      SchemeStartsWithH(c, k);
    }
  }

  lemma {:induction false} LowerTextKeepsLength(s: string)
    ensures |LowerText(s)| == |s|
  {
    if s != [] {
      LowerTextKeepsLength(s[1..]);
    }
  }

  const GLUED := "1.2.3.4:80x"

  lemma GluedQuad()
    ensures DottedOctets(GLUED, 0, [1, 3, 5], 7)
  {
    var c := GLUED;
    assert Value(c[0..1]) == Value(c[2..3]) - 1 == Value(c[4..5]) - 2 == Value(c[6..7]) - 3 == 1 by {
      assert c[0..1] == ['1'] && c[2..3] == ['2'] && c[4..5] == ['3'] && c[6..7] == ['4'];
    }
    DottedCons(c, 4, 5, [], 7);
    DottedCons(c, 2, 3, [5], 7);
    DottedCons(c, 0, 1, [3, 5], 7);
  }

  /**
   A letter right after the port makes the quad part of a longer word, which is written as it
   stands: a quad at a boundary the scan reaches that is not hidden.
   */
  lemma GluedPortIsKept(mask: string -> string)
    ensures AtBoundary(GLUED, 0) && Reached(GLUED, 0, mask) && Ipv4End(GLUED, 0) == Some(7)
    ensures !QuadStands(GLUED, 0, 7) && HostnameToken(GLUED, 0, mask).None? && !Hidden(GLUED, 0, mask)
  {
    GluedQuad();
    QuadIsFound(GLUED, 0, [1, 3, 5], 7);
    GluedPort();
    GluedIsNoName();
    GluedIsKept(GLUED, 7, mask);
  }

  lemma GluedIsKept(c: string, end: nat, mask: string -> string)
    requires c != "" && Ipv4End(c, 0) == Some(end) && HostnameEnd(c, 0) == None
    requires PortEnd(c, end) < |c| && IsHost(c[PortEnd(c, end)])
    ensures !Hidden(c, 0, mask)
  {
    QuadHiddenExactly(c, 0, end, mask);
  }

  lemma NameRunsTo(c: string, end: nat, stop: nat)
    requires NameAt(c, 0, end) && NameStops(c, end)
    requires stop < |c| && !In(c[stop], Label) && c[stop] != '.'
    requires forall k: nat :: k < stop ==> In(c[k], Label) || DotContinues(c, k)
    ensures end == stop
  {
  }

  lemma GluedTail()
    ensures AfterLast(GLUED[0..7], '.') == "4"
  {
    assert GLUED[0..7][..6] == GLUED[0..6];
    assert AfterLast(GLUED[0..6], '.') == [];
  }

  /** A word whose last label is a single character is no name under a known domain. */
  lemma ShortLabelIsNoName(c: string, stop: nat)
    requires stop < |c| && !In(c[stop], Label) && c[stop] != '.'
    requires forall k: nat :: k < stop ==> In(c[k], Label) || DotContinues(c, k)
    requires |AfterLast(c[0..stop], '.')| == 1
    ensures HostnameEnd(c, 0) == None
  {
    if HostnameEnd(c, 0).Some? {
      FoundIsName(c, 0);
      NameRunsTo(c, HostnameEnd(c, 0).value, stop);
      LowerTextKeepsLength(AfterLast(c[0..stop], '.'));
    }
  }

  lemma GluedIsNoName()
    ensures HostnameEnd(GLUED, 0) == None
  {
    GluedTail();
    assert GLUED[7] == ':';
    ShortLabelIsNoName(GLUED, 7);
  }

  lemma GluedPort()
    ensures PortEnd(GLUED, 7) == 10
  {
    StretchIsLongest(GLUED, 8, Digit, 5, 10);
  }

  /** A name of two labels or more under a known top-level domain, with its port, not glued to a longer word. */
  predicate NameStands(c: string, k: nat, end: nat) {
    && NameAt(c, k, end) && NameStops(c, end) && AtBoundary(c, k) && IsAlnum(c[k])
    && '.' in c[k..end] && IsKnownTld(LowerText(AfterLast(c[k..end], '.')))
    && (PortEnd(c, end) == |c| || !IsHost(c[PortEnd(c, end)]))
  }

  lemma OneLabelHasNoDot(c: string, k: nat)
    requires k <= |c| && LabelsEnd(c, k).Some? && LabelsEnd(c, k).value.1 == 1
    ensures '.' !in c[k..LabelsEnd(c, k).value.0]
  {
    var e := StretchEnd(c, k, Label, |c|);
    StretchIsLongest(c, k, Label, |c|, e);
    forall d | k <= d < e ensures c[d] != '.' {
      assert In(c[d], Label);
    }
  }

  lemma NameIsMatched(c: string, k: nat, end: nat)
    requires NameStands(c, k, end)
    ensures HostnameEnd(c, k) == Some(end)
  {
    NameIsFound(c, k, end);
    if LabelsEnd(c, k).value.1 == 1 {
      OneLabelHasNoDot(c, k);
    }
  }

  /** The first character of such a name is never written to the log; the mask of name and port is. */
  lemma NamesAreHidden(c: string, k: nat, end: nat, mask: string -> string)
    requires NameStands(c, k, end)
    ensures Hidden(c, k, mask) && Copied(k) !in Segments(c, 0, mask)
    ensures ReplacedAt(c, k, Token(PortEnd(c, end), mask(c[k..PortEnd(c, end)])), mask)
  {
    NameIsMatched(c, k, end);
    NameIsNoUrl(c, k, end);
    if Ipv4Token(c, k, mask).Some? {
      QuadMatches(c, k, Ipv4End(c, k).value, mask);
      QuadInName(c, k, Ipv4End(c, k).value, end);
    }
    MatchedIsHidden(c, k, mask);
  }

  lemma SchemeColon(c: string, k: nat) returns (colon: nat)
    requires k <= |c| && Scheme(c, k) != ""
    ensures k <= colon < |c| && c[colon] == ':' && forall j: nat :: k <= j < colon ==> c[j] != '.'
  {
    var scheme := Scheme(c, k);
    colon := k + |scheme| - 3;
    assert scheme[|scheme| - 3] == ':' && c[k..k + |scheme|][|scheme| - 3] == c[colon];
    forall j: nat | k <= j < colon ensures c[j] != '.' {
      assert scheme[j - k] != '.' && c[k..k + |scheme|][j - k] == c[j];
    }
  }

  lemma DotInside(c: string, k: nat, end: nat) returns (d: nat)
    requires k <= end <= |c| && '.' in c[k..end]
    ensures k <= d < end && c[d] == '.'
  {
    var j :| 0 <= j < end - k && c[k..end][j] == '.';
    d := k + j;
  }

  lemma NameIsNoUrl(c: string, k: nat, end: nat)
    requires NameAt(c, k, end) && '.' in c[k..end]
    ensures Scheme(c, k) == ""
  {
    var d := DotInside(c, k, end);
    if Scheme(c, k) != "" {
      var colon := SchemeColon(c, k);
    }
  }

  /** A quad that stands where a name does is the whole of it. */
  lemma QuadInName(c: string, k: nat, quad: nat, end: nat)
    requires NameAt(c, k, end) && NameStops(c, end) && QuadStands(c, k, quad)
    ensures quad == end
  {
    var dots: seq<nat> :| |dots| == 3 && DottedOctets(c, k, dots, quad);
    QuadIsHost(c, k, dots, quad);
    NothingAfter(c, quad);
    SameEnd(c, k, quad, end);
  }

  lemma NothingAfter(c: string, quad: nat)
    requires quad <= |c| && (PortEnd(c, quad) == |c| || !IsHost(c[PortEnd(c, quad)]))
    ensures quad == |c| || !IsHost(c[quad])
  {
    PortGrammar(c, quad);
  }

  predicate OfQuad(c: string, k: nat) {
    k < |c| && (IsDigit(c[k]) || (c[k] == '.' && k + 1 < |c| && IsDigit(c[k + 1])))
  }

  predicate DigitsAndDots(c: string, i: nat, end: nat) { forall k: nat :: i <= k < end ==> OfQuad(c, k) }

  lemma SameEnd(c: string, k: nat, quad: nat, end: nat)
    requires NameAt(c, k, end) && NameStops(c, end)
    requires k < quad <= |c| && DigitsAndDots(c, k, quad) && (quad == |c| || !IsHost(c[quad]))
    ensures quad == end
  {
    NoStopInside(c, k, quad, end);
  }

  lemma NoStopInside(c: string, i: nat, quad: nat, end: nat)
    requires i <= end && quad <= |c| && DigitsAndDots(c, i, quad)
    ensures end < quad ==> !NameStops(c, end)
  {
    if end < quad {
      assert OfQuad(c, end);
    }
  }

  lemma OctetIsDigits(c: string, i: nat, d: nat)
    requires i <= d <= |c| && IsOctet(c[i..d])
    ensures i < d && forall k: nat :: i <= k < d ==> IsDigit(c[k])
  {
    assert forall k :: i <= k < d ==> c[k] == c[i..d][k - i];
  }

  /** All of a dotted quad is digits, and dots with digits behind them. */
  lemma {:induction false} QuadIsHost(c: string, i: nat, dots: seq<nat>, end: nat)
    requires DottedOctets(c, i, dots, end)
    ensures i < end <= |c| && IsDigit(c[i]) && DigitsAndDots(c, i, end)
    decreases |dots|
  {
    if dots == [] {
      OctetIsDigits(c, i, end);
    } else {
      OctetIsDigits(c, i, dots[0]);
      QuadIsHost(c, dots[0] + 1, dots[1..], end);
    }
  }

  /** Of a URL with a non-empty authority, only the scheme and the masked host are written. */
  lemma UrlsAreHidden(c: string, k: nat, mask: string -> string)
    requires k < |c| && Scheme(c, k) != ""
    requires k + |Scheme(c, k)| < |c| && In(c[k + |Scheme(c, k)|], Authority)
    ensures Hidden(c, k, mask)
    ensures var begin := k + |Scheme(c, k)|;
            var end := StretchEnd(c, begin, Authority, MAX_AUTHORITY);
            var host := AfterLast(c[begin..end], '@');
            && begin < end && '@' !in host
            && ReplacedAt(c, k, Token(end, Scheme(c, k) + mask(host)), mask)
  {
    UrlMatches(c, k, mask);
    MatchedIsHidden(c, k, mask);
  }

  lemma UrlMatches(c: string, k: nat, mask: string -> string)
    requires k < |c| && Scheme(c, k) != ""
    requires k + |Scheme(c, k)| < |c| && In(c[k + |Scheme(c, k)|], Authority)
    ensures var begin := k + |Scheme(c, k)|;
            var end := StretchEnd(c, begin, Authority, MAX_AUTHORITY);
            var host := AfterLast(c[begin..end], '@');
            begin < end && '@' !in host && MatchAt(c, k, mask) == Some(Token(end, Scheme(c, k) + mask(host)))
  {
    var begin := k + |Scheme(c, k)|;
    var end := StretchEnd(c, begin, Authority, MAX_AUTHORITY);
    StretchIsLongest(c, begin, Authority, MAX_AUTHORITY, end);
    AfterLastHasNone(c[begin..end], '@');
  }

  lemma NothingElseAtBracket(c: string, k: nat, mask: string -> string)
    requires k < |c| && c[k] == '['
    ensures MatchAt(c, k, mask) == BracketToken(c, k, mask)
  {
    if Scheme(c, k) != "" {
      SchemeStartsWithH(c, k);
    }
  }

  /** A bracketed address is replaced as one with its port, unless an earlier token runs over it. */
  lemma BracketsAreHidden(c: string, k: nat, j: nat, mask: string -> string)
    requires BracketedAt(c, k, j)
    ensures Hidden(c, k, mask)
    ensures ReplacedAt(c, k, Token(PortEnd(c, j + 1), mask(c[k..PortEnd(c, j + 1)])), mask)
  {
    BracketGrammar(c, k, j, mask);
    NothingElseAtBracket(c, k, mask);
    MatchedIsHidden(c, k, mask);
  }

  /** An opening bracket the scan reaches is hidden exactly when a bracketed address begins there. */
  lemma BracketHiddenExactly(c: string, k: nat, mask: string -> string)
    requires k < |c| && c[k] == '[' && Reached(c, k, mask)
    ensures Hidden(c, k, mask) <==> exists j: nat :: BracketedAt(c, k, j)
  {
    NothingElseAtBracket(c, k, mask);
    HiddenIffMatched(c, k, mask);
    var j := StretchEnd(c, k + 1, V6, |c|);
    BracketGrammar(c, k, j, mask);
    forall l: nat | BracketedAt(c, k, l) ensures BracketToken(c, k, mask).Some? {
      BracketGrammar(c, k, l, mask);
    }
  }

  // ------------------------------------------------------------ where tokens begin, exactly

  predicate UrlStands(c: string, k: nat) {
    && k < |c| && Scheme(c, k) != ""
    && k + |Scheme(c, k)| < |c| && In(c[k + |Scheme(c, k)|], Authority)
  }

  lemma UrlIffStands(c: string, k: nat, mask: string -> string)
    requires k < |c|
    ensures UrlToken(c, k, mask).Some? <==> UrlStands(c, k)
  {
    if Scheme(c, k) != "" {
      var begin := k + |Scheme(c, k)|;
      StretchIsLongest(c, begin, Authority, MAX_AUTHORITY, begin);
    }
  }

  lemma BracketIffStands(c: string, k: nat, mask: string -> string)
    requires k < |c|
    ensures BracketToken(c, k, mask).Some? <==> exists j: nat :: BracketedAt(c, k, j)
  {
    BracketGrammar(c, k, if c[k] == '[' then StretchEnd(c, k + 1, V6, |c|) else |c|, mask);
    forall j: nat | BracketedAt(c, k, j) ensures BracketToken(c, k, mask).Some? {
      BracketGrammar(c, k, j, mask);
    }
  }

  lemma QuadIffStands(c: string, k: nat, mask: string -> string)
    requires k < |c|
    ensures Ipv4Token(c, k, mask).Some? <==> exists end: nat :: QuadStands(c, k, end)
  {
    if Ipv4Token(c, k, mask).Some? {
      QuadMatches(c, k, Ipv4End(c, k).value, mask);
    }
    forall end: nat | QuadStands(c, k, end) ensures Ipv4Token(c, k, mask).Some? {
      Ipv4Grammar(c, k, end);
      QuadMatches(c, k, end, mask);
    }
  }

  lemma {:induction false} ManyLabelsHaveDot(c: string, k: nat)
    requires k <= |c| && LabelsEnd(c, k).Some? && LabelsEnd(c, k).value.1 >= 2
    ensures '.' in c[k..LabelsEnd(c, k).value.0]
  {
    var e, end := StretchEnd(c, k, Label, |c|), LabelsEnd(c, k).value.0;
    assert c[k..end][e - k] == c[e];
  }

  lemma FoundNameStands(c: string, k: nat, end: nat)
    requires k < |c| && AtBoundary(c, k) && IsAlnum(c[k]) && HostnameEnd(c, k) == Some(end)
    requires PortEnd(c, end) == |c| || !IsHost(c[PortEnd(c, end)])
    ensures NameStands(c, k, end)
  {
    FoundIsName(c, k);
    ManyLabelsHaveDot(c, k);
  }

  lemma NameIffStands(c: string, k: nat, mask: string -> string)
    requires k < |c|
    ensures HostnameToken(c, k, mask).Some? <==> exists end: nat :: NameStands(c, k, end)
  {
    if HostnameToken(c, k, mask).Some? {
      FoundNameStands(c, k, HostnameEnd(c, k).value);
    }
    forall end: nat | NameStands(c, k, end) ensures HostnameToken(c, k, mask).Some? {
      NameIsMatched(c, k, end);
    }
  }

  /**
   Nothing else is hidden: a character the scan reaches begins a token if and only if a URL, a
   bracketed address, a standing quad or a standing name under a known domain begins there.
   */
  lemma TokensBeginExactly(c: string, k: nat, mask: string -> string)
    requires k < |c| && Reached(c, k, mask)
    ensures Hidden(c, k, mask) <==>
              || UrlStands(c, k) || (exists j: nat :: BracketedAt(c, k, j))
              || (exists end: nat :: QuadStands(c, k, end)) || (exists end: nat :: NameStands(c, k, end))
  {
    HiddenIffMatched(c, k, mask);
    UrlIffStands(c, k, mask);
    BracketIffStands(c, k, mask);
    QuadIffStands(c, k, mask);
    NameIffStands(c, k, mask);
  }

  // ------------------------------------------------------------ what stays as it is

  lemma OutputCopies(c: string, i: nat, mask: string -> string)
    requires i < |c| && MatchAt(c, i, mask) == None
    ensures Output(c, i, mask) == [c[i]] + Output(c, i + 1, mask)
  {
  }

  /** Text where no matcher fires is written unchanged. */
  lemma {:induction false} PlainTextIsKept(c: string, i: nat, mask: string -> string)
    requires i <= |c| && forall k :: i <= k < |c| ==> MatchAt(c, k, mask) == None
    ensures Output(c, i, mask) == c[i..]
    decreases |c| - i
  {
    if i < |c| {
      PlainTextIsKept(c, i + 1, mask);
      OutputCopies(c, i, mask);
      HeadAndTail(c, i);
    }
  }

  lemma HeadAndTail(c: string, i: nat)
    requires i < |c|
    ensures c[i..] == [c[i]] + c[i + 1..]
  {
  }

  lemma SchemeHasSlash(c: string, k: nat)
    requires k <= |c| && Scheme(c, k) != ""
    ensures '/' in c
  {
    var scheme := Scheme(c, k);
    assert forall j :: 0 <= j < |scheme| ==> scheme[j] == c[k..k + |scheme|][j] == c[k + j];
    if |Scheme(c, k)| == 7 {
      assert c[k + 6] == '/';
    } else {
      assert c[k + 7] == '/';
    }
  }

  lemma QuadHasDot(c: string, k: nat)
    requires k <= |c| && Ipv4End(c, k).Some?
    ensures '.' in c
  {
    var d := FirstDot(c, k, 4);
    assert c[d] in c;
  }

  lemma HostnameHasDot(c: string, k: nat)
    requires k <= |c| && HostnameEnd(c, k).Some?
    ensures '.' in c
  {
    var e := StretchEnd(c, k, Label, |c|);
    assert c[e] in c;
  }

  /** Text without dots, slashes and opening brackets is written unchanged. */
  lemma NothingToFind(c: string, k: nat, mask: string -> string)
    requires k < |c| && '.' !in c && '[' !in c && '/' !in c
    ensures MatchAt(c, k, mask) == None
  {
    assert c[k] in c;
    if Scheme(c, k) != "" {
      SchemeHasSlash(c, k);
    }
    if Ipv4End(c, k).Some? {
      QuadHasDot(c, k);
    }
    if HostnameEnd(c, k).Some? {
      HostnameHasDot(c, k);
    }
  }
}
