/**
 The matchers of the log sanitizer: each looks at the text from one index and says where a
 token that must not be logged ends.
 */
module TokenScan {
  import opened Wrappers
  import Decimals

  // -------------------------------------------------------------- characters

  predicate IsDigit(c: char) { '0' <= c <= '9' }

  predicate IsAlnum(c: char) { IsDigit(c) || 'a' <= c <= 'z' || 'A' <= c <= 'Z' }

  predicate IsHex(c: char) { IsDigit(c) || 'a' <= c <= 'f' || 'A' <= c <= 'F' }

  predicate IsHost(c: char) { IsAlnum(c) || c == '-' || c == '_' || c == '.' }

  /** The kinds of characters the scanning loops run over. */
  datatype Class = Digit | Label | V6 | Authority

  predicate In(c: char, class_: Class) {
    match class_
    case Digit => IsDigit(c)
    case Label => IsAlnum(c) || c == '-'
    case V6 => IsHex(c) || c == ':' || c == '.'
    case Authority =>
      c != '/' && c != '?' && c != '#' && c != ' ' && c != '\t' && c != '"' && c != '\''
      && c != ')' && c != ']' && c != ',' && c != ';' && c != '|'
  }

  /** The end of the longest stretch of a class from `i`, of at most `limit` characters. */
  function StretchEnd(c: string, i: nat, class_: Class, limit: nat): (end: nat)
    requires i <= |c|
    ensures i <= end <= |c|
    decreases limit
  {
    if limit == 0 || i == |c| || !In(c[i], class_) then i else StretchEnd(c, i + 1, class_, limit - 1)
  }

  /** What "longest stretch" means. */
  predicate IsStretch(c: string, i: nat, class_: Class, limit: nat, end: nat) {
    && i <= end <= |c| && end - i <= limit
    && (forall k :: i <= k < end ==> In(c[k], class_))
    && (end == |c| || end - i == limit || !In(c[end], class_))
  }

  lemma {:induction false} StretchIsLongest(c: string, i: nat, class_: Class, limit: nat, end: nat)
    requires i <= |c|
    ensures end == StretchEnd(c, i, class_, limit) <==> IsStretch(c, i, class_, limit, end)
    decreases limit
  {
    if limit != 0 && i < |c| && In(c[i], class_) {
      StretchIsLongest(c, i + 1, class_, limit - 1, end);
    }
  }

  /** The scanning loop shared by all matchers. */
  method SkipStretch(c: string, start: nat, class_: Class, limit: nat) returns (i: nat)
    requires start <= |c|
    ensures i == StretchEnd(c, start, class_, limit)
  {
    i := start;
    while i < |c| && In(c[i], class_) && i - start < limit
      invariant start <= i <= |c| && i - start <= limit
      invariant StretchEnd(c, i, class_, limit - (i - start)) == StretchEnd(c, start, class_, limit)
    {
      i := i + 1;
    }
  }

  // --------------------------------------------------------------------- IPv4

  function DigitValue(c: char): nat
    requires IsDigit(c)
  {
    c as int - '0' as int
  }

  function Value(s: string): nat
    requires forall k :: 0 <= k < |s| ==> IsDigit(s[k])
  {
    if s == [] then 0 else 10 * Value(s[..|s| - 1]) + DigitValue(s[|s| - 1])
  }

  /** The value of digits is the number they write. */
  lemma {:induction false} ValueReadsDecimal(n: nat)
    ensures forall k :: 0 <= k < |Decimals.Decimal(n)| ==> IsDigit(Decimals.Decimal(n)[k])
    ensures Value(Decimals.Decimal(n)) == n
    ensures n <= 255 ==> IsOctet(Decimals.Decimal(n))
  {
    var text := Decimals.Decimal(n);
    if n < 10 {
      assert text[..0] == "";
    } else {
      ValueReadsDecimal(n / 10);
      assert text[..|text| - 1] == Decimals.Decimal(n / 10);
    }
    if n <= 255 {
      OctetsAreShort(n);
    }
  }

  lemma OctetsAreShort(n: nat)
    requires n <= 255
    ensures 1 <= |Decimals.Decimal(n)| <= 3
  {
    if n >= 100 {
      OneDigitMore(n / 10);
    }
    if n >= 10 {
      OneDigitMore(n);
    }
  }

  lemma OneDigitMore(n: nat)
    requires n >= 10
    ensures |Decimals.Decimal(n)| == |Decimals.Decimal(n / 10)| + 1
    ensures n < 100 ==> |Decimals.Decimal(n)| == 2
  {
  }

  /** One to three digits with a value of at most 255. */
  predicate IsOctet(s: string) {
    1 <= |s| <= 3 && (forall k :: 0 <= k < |s| ==> IsDigit(s[k])) && Value(s) <= 255
  }

  function OctetEnd(c: string, i: nat): (r: Option<nat>)
    requires i <= |c|
    ensures r.Some? ==> i < r.value <= |c|
  {
    var e := StretchEnd(c, i, Digit, 3);
    StretchIsLongest(c, i, Digit, 3, e);
    if e == i || Value(c[i..e]) > 255 then None else Some(e)
  }

  /** `n` octets with dots between them. */
  function QuadEnd(c: string, i: nat, n: nat): (r: Option<nat>)
    requires i <= |c| && 1 <= n
    ensures r.Some? ==> i < r.value <= |c|
    decreases n
  {
    match OctetEnd(c, i)
    case None => None
    case Some(e) =>
      if n == 1 then Some(e)
      else if e >= |c| || c[e] != '.' then None
      else QuadEnd(c, e + 1, n - 1)
  }

  function Ipv4End(c: string, start: nat): (r: Option<nat>)
    requires start <= |c|
    ensures r.Some? ==> start < r.value <= |c|
  {
    QuadEnd(c, start, 4)
  }

  method ReadOctet(c: string, begin: nat) returns (end: Option<nat>)
    requires begin <= |c|
    ensures end == OctetEnd(c, begin)
  {
    var i := SkipStretch(c, begin, Digit, 3);
    StretchIsLongest(c, begin, Digit, 3, i);
    if i == begin || Value(c[begin..i]) > 255 {
      return None;
    }
    return Some(i);
  }

  /** One round of the octet loop: the octet, and the dot unless it is the last one. */
  function OctetRound(c: string, i: nat, last: bool): (r: Option<nat>)
    requires i <= |c|
    ensures r.Some? ==> i < r.value <= |c|
  {
    var e := OctetEnd(c, i);
    if e.None? || last then e
    else if e.value < |c| && c[e.value] == '.' then Some(e.value + 1)
    else None
  }

  lemma QuadUnfolds(c: string, i: nat, n: nat)
    requires i <= |c| && 1 <= n
    ensures var e := OctetRound(c, i, n == 1);
            QuadEnd(c, i, n) == if e.None? || n == 1 then e else QuadEnd(c, e.value, n - 1)
  {
  }

  method ReadOctetRound(c: string, begin: nat, last: bool) returns (end: Option<nat>)
    requires begin <= |c|
    ensures end == OctetRound(c, begin, last)
  {
    end := ReadOctet(c, begin);
    if end.Some? && !last {
      var i := end.value;
      if i >= |c| || c[i] != '.' {
        return None;
      }
      return Some(i + 1);
    }
  }

  /** One round towards `target`, with `left` octets to read from `begin` on. */
  method ReadOctetTowards(c: string, begin: nat, left: nat, ghost target: Option<nat>) returns (next: Option<nat>)
    requires begin <= |c| && 1 <= left && QuadEnd(c, begin, left) == target
    ensures next.None? ==> target == None
    ensures next.Some? && left == 1 ==> target == next
    ensures next.Some? && left > 1 ==> next.value <= |c| && QuadEnd(c, next.value, left - 1) == target
  {
    QuadUnfolds(c, begin, left);
    next := ReadOctetRound(c, begin, left == 1);
  }

  method ReadOctets(c: string, start: nat, count: nat) returns (end: Option<nat>)
    requires start <= |c| && 1 <= count
    ensures end == QuadEnd(c, start, count)
  {
    ghost var target := QuadEnd(c, start, count);
    end := Some(start);
    for octet := 0 to count
      invariant end.Some? && (octet < count ==> end.value <= |c|)
      invariant octet < count ==> QuadEnd(c, end.value, count - octet) == target
      invariant octet == count ==> end == target
    {
      end := ReadOctetTowards(c, end.value, count - octet, target);
      if end.None? {
        return;
      }
    }
  }

  method ParseIpv4At(c: string, start: nat) returns (end: Option<nat>)
    requires start <= |c|
    ensures end == Ipv4End(c, start)
  {
    end := ReadOctets(c, start, 4);
  }

  /** The octet at `i` runs to `e`, and a longer one cannot be read. */
  predicate OctetAt(c: string, i: nat, e: nat) {
    i <= e <= |c| && IsOctet(c[i..e]) && (e == |c| || e - i == 3 || !IsDigit(c[e]))
  }

  lemma OctetGrammar(c: string, i: nat, e: nat)
    requires i <= |c|
    ensures OctetEnd(c, i) == Some(e) <==> OctetAt(c, i, e)
  {
    StretchIsLongest(c, i, Digit, 3, e);
    StretchIsLongest(c, i, Digit, 3, StretchEnd(c, i, Digit, 3));
    if i <= e <= |c| && IsOctet(c[i..e]) {
      forall k | i <= k < e ensures IsDigit(c[k]) {
        assert c[k] == c[i..e][k - i];
      }
    }
  }

  /** Octets separated by dots at the given places, the last one read as far as it goes. */
  predicate DottedOctets(c: string, i: nat, dots: seq<nat>, end: nat)
    decreases |dots|
  {
    if dots == [] then OctetAt(c, i, end)
    else
      && i <= dots[0] < |c| && c[dots[0]] == '.' && IsOctet(c[i..dots[0]])
      && DottedOctets(c, dots[0] + 1, dots[1..], end)
  }

  /** Any dotted quad written in the text is found, to its very end. */
  lemma {:induction false} QuadIsFound(c: string, i: nat, dots: seq<nat>, end: nat)
    requires DottedOctets(c, i, dots, end)
    ensures i <= |c| && QuadEnd(c, i, |dots| + 1) == Some(end)
    decreases |dots|
  {
    if dots == [] {
      OctetGrammar(c, i, end);
    } else {
      OctetGrammar(c, i, dots[0]);
      QuadIsFound(c, dots[0] + 1, dots[1..], end);
    }
  }

  lemma FirstDot(c: string, i: nat, n: nat) returns (d: nat)
    requires i <= |c| && n > 1 && QuadEnd(c, i, n).Some?
    ensures i <= d < |c| && c[d] == '.' && OctetEnd(c, i) == Some(d)
    ensures QuadEnd(c, d + 1, n - 1) == QuadEnd(c, i, n)
  {
    d := OctetEnd(c, i).value;
  }

  lemma DottedCons(c: string, i: nat, d: nat, rest: seq<nat>, end: nat)
    requires i <= d < |c| && c[d] == '.' && IsOctet(c[i..d]) && DottedOctets(c, d + 1, rest, end)
    ensures DottedOctets(c, i, [d] + rest, end)
  {
    assert ([d] + rest)[1..] == rest;
  }

  /** Whatever is found is a dotted quad. */
  lemma {:induction false} FoundIsQuad(c: string, i: nat, n: nat) returns (dots: seq<nat>)
    requires i <= |c| && 1 <= n && QuadEnd(c, i, n).Some?
    ensures |dots| == n - 1 && DottedOctets(c, i, dots, QuadEnd(c, i, n).value)
    decreases n
  {
    if n == 1 {
      OctetGrammar(c, i, QuadEnd(c, i, n).value);
      dots := [];
    } else {
      var d := FirstDot(c, i, n);
      OctetGrammar(c, i, d);
      var rest := FoundIsQuad(c, d + 1, n - 1);
      dots := [d] + rest;
      DottedCons(c, i, d, rest, QuadEnd(c, i, n).value);
    }
  }

  /** The IPv4 matcher decides the grammar: four octets, three dots, maximal munch at the end. */
  lemma Ipv4Grammar(c: string, start: nat, end: nat)
    requires start <= |c|
    ensures Ipv4End(c, start) == Some(end)
       <==> exists dots: seq<nat> :: |dots| == 3 && DottedOctets(c, start, dots, end)
  {
    if Ipv4End(c, start) == Some(end) {
      var dots := FoundIsQuad(c, start, 4);
    }
    forall dots: seq<nat> | |dots| == 3 && DottedOctets(c, start, dots, end) ensures Ipv4End(c, start) == Some(end) {
      QuadIsFound(c, start, dots, end);
    }
  }

  // --------------------------------------------------------------------- port

  function PortEnd(c: string, start: nat): (end: nat)
    requires start <= |c|
    ensures start <= end <= |c|
  {
    if start + 1 >= |c| || c[start] != ':' || !IsDigit(c[start + 1]) then start
    else StretchEnd(c, start + 1, Digit, 5)
  }

  method ConsumePort(c: string, start: nat) returns (end: nat)
    requires start <= |c|
    ensures end == PortEnd(c, start)
  {
    if start + 1 >= |c| || c[start] != ':' || !IsDigit(c[start + 1]) {
      return start;
    }
    end := SkipStretch(c, start + 1, Digit, 5);
  }

  // ---------------------------------------------------------------- host name

  const MAX_LABEL := 63

  predicate DotContinues(c: string, i: nat) {
    i + 1 < |c| && c[i] == '.' && IsAlnum(c[i + 1])
  }

  /** Labels with dots between them: where they end, and how many there are. */
  function LabelsEnd(c: string, i: nat): (r: Option<(nat, nat)>)
    requires i <= |c|
    ensures r.Some? ==> i < r.value.0 <= |c| && r.value.1 >= 1
    decreases |c| - i
  {
    var e := StretchEnd(c, i, Label, |c|);
    if e == i || e - i > MAX_LABEL then None
    else if DotContinues(c, e) then
      match LabelsEnd(c, e + 1)
      case None => None
      case Some((end, n)) => Some((end, n + 1))
    else Some((e, 1))
  }

  function Lower(c: char): char { if 'A' <= c <= 'Z' then (c as int + 32) as char else c }

  function LowerText(s: string): string {
    if s == [] then [] else [Lower(s[0])] + LowerText(s[1..])
  }

  predicate IsKnownTld(s: string) {
    s in ["com", "cn", "net", "org", "io", "me", "co", "cc", "tv", "xyz", "top", "info", "dev", "app",
          "cloud", "site", "online", "vip", "uk", "us", "jp", "hk", "tw", "sg", "de", "ru", "au", "ca",
          "fr", "kr", "edu", "gov"]
  }

  /** The text after the last separator, or all of it when there is none. */
  function AfterLast(s: string, separator: char): string {
    if s == [] || s[|s| - 1] == separator then []
    else AfterLast(s[..|s| - 1], separator) + [s[|s| - 1]]
  }

  lemma {:induction false} AfterLastHasNone(s: string, separator: char)
    ensures separator !in AfterLast(s, separator) && |AfterLast(s, separator)| <= |s|
  {
    if s != [] && s[|s| - 1] != separator {
      AfterLastHasNone(s[..|s| - 1], separator);
    }
  }

  /** The tail after the last separator: free of it, and either everything or preceded by one. */
  lemma {:induction false} AfterLastIsTail(s: string, separator: char)
    ensures var tail := AfterLast(s, separator);
            && separator !in tail
            && (tail == s || exists head :: s == head + [separator] + tail)
  {
    AfterLastHasNone(s, separator);
    if s != [] {
      var init, last := s[..|s| - 1], s[|s| - 1];
      assert s == init + [last];
      if last == separator {
        assert s == init + [separator] + [];
      } else {
        AfterLastIsTail(init, separator);
        var tail := AfterLast(init, separator);
        if tail != init {
          var head :| init == head + [separator] + tail;
          assert s == head + [separator] + (tail + [last]);
        }
      }
    }
  }

  function HostnameEnd(c: string, start: nat): (r: Option<nat>)
    requires start <= |c|
    ensures r.Some? ==> start < r.value <= |c|
  {
    match LabelsEnd(c, start)
    case None => None
    case Some((end, labels)) =>
      if labels < 2 || !IsKnownTld(LowerText(AfterLast(c[start..end], '.'))) then None else Some(end)
  }

  method ParseHostnameAt(c: string, start: nat) returns (r: Option<nat>)
    requires start <= |c|
    ensures r == HostnameEnd(c, start)
  {
    var end, labels := start, 0;
    var more := true;
    while more
      invariant end <= |c|
      invariant more ==> LabelsEnd(c, start) ==
                           match LabelsEnd(c, end)
                           case None => None
                           case Some((e, n)) => Some((e, n + labels))
      invariant !more ==> LabelsEnd(c, start) == Some((end, labels))
      decreases |c| - end, more
    {
      var begin := end;
      end := SkipStretch(c, begin, Label, |c|);
      if end == begin || end - begin > MAX_LABEL {
        return None;
      }
      labels := labels + 1;
      if DotContinues(c, end) {
        end := end + 1;
      } else {
        more := false;
      }
    }
    if labels < 2 || !IsKnownTld(LowerText(AfterLast(c[start..end], '.'))) {
      return None;
    }
    return Some(end);
  }

  predicate HasDot(c: string, k: nat, l: nat) {
    exists d :: k <= d < l && d < |c| && c[d] == '.'
  }

  /** A name: label characters and dots, each dot followed by a letter or digit, no label over 63. */
  predicate NameAt(c: string, start: nat, end: nat) {
    && start < end <= |c|
    && (forall k :: start <= k < end ==> In(c[k], Label) || c[k] == '.')
    && c[start] != '.'
    && (forall k :: start <= k < end && c[k] == '.' ==> k + 1 < end && IsAlnum(c[k + 1]))
    && (forall k: nat, l: nat :: start <= k < l <= end && l - k > MAX_LABEL ==> HasDot(c, k, l))
  }

  /** Nothing that could continue the name follows. */
  predicate NameStops(c: string, end: nat) {
    end >= |c| || (!In(c[end], Label) && !DotContinues(c, end))
  }

  /** The first label of a name is within the name, and not too long. */
  lemma LabelInside(c: string, start: nat, end: nat, e: nat)
    requires NameAt(c, start, end) && NameStops(c, end) && IsStretch(c, start, Label, |c|, e)
    ensures e <= end && start < e && e - start <= MAX_LABEL
  {
    assert In(c[start], Label);
    assert e - start > MAX_LABEL ==> HasDot(c, start, e);
  }

  /** Every name that stops is found, to its end. */
  lemma {:induction false} NameIsFound(c: string, start: nat, end: nat)
    requires NameAt(c, start, end) && NameStops(c, end)
    ensures LabelsEnd(c, start).Some? && LabelsEnd(c, start).value.0 == end
    decreases |c| - start
  {
    var e := StretchEnd(c, start, Label, |c|);
    StretchIsLongest(c, start, Label, |c|, e);
    LabelInside(c, start, end, e);
    if e < end {
      assert c[e] == '.';
      NameIsFound(c, e + 1, end);
    }
  }

  lemma LabelIsName(c: string, start: nat, e: nat)
    requires IsStretch(c, start, Label, |c|, e) && start < e && e - start <= MAX_LABEL
    ensures NameAt(c, start, e)
    ensures e < |c| ==> !In(c[e], Label)
  {
    assert forall k :: start <= k < e ==> In(c[k], Label);
  }

  lemma JoinedName(c: string, start: nat, e: nat, end: nat)
    requires NameAt(c, start, e) && DotContinues(c, e) && NameAt(c, e + 1, end)
    ensures NameAt(c, start, end)
  {
    forall k: nat, l: nat | start <= k < l <= end && l - k > MAX_LABEL ensures HasDot(c, k, l) {
      if k <= e < l {
        assert c[e] == '.';
      }
    }
  }

  /** Whatever the label loop accepts is such a name, and stops. */
  lemma {:induction false} FoundIsName(c: string, start: nat)
    requires start <= |c| && LabelsEnd(c, start).Some?
    ensures NameAt(c, start, LabelsEnd(c, start).value.0) && NameStops(c, LabelsEnd(c, start).value.0)
    decreases |c| - start
  {
    var e := StretchEnd(c, start, Label, |c|);
    StretchIsLongest(c, start, Label, |c|, e);
    LabelIsName(c, start, e);
    if DotContinues(c, e) {
      FoundIsName(c, e + 1);
      JoinedName(c, start, e, LabelsEnd(c, e + 1).value.0);
    }
  }

  // ---------------------------------------------------- URLs and bracketed IPv6

  const MAX_AUTHORITY := 255

  /** What a matched token ends with and is replaced by. */
  datatype Token = Token(end: nat, text: string)

  predicate StartsWith(c: string, i: nat, p: string)
    requires i <= |c|
  {
    i + |p| <= |c| && c[i..i + |p|] == p
  }

  function Scheme(c: string, i: nat): (s: string)
    requires i <= |c|
    ensures i + |s| <= |c| && s == c[i..i + |s|]
  {
    if StartsWith(c, i, "https://") then "https://" else if StartsWith(c, i, "http://") then "http://" else ""
  }

  function UrlToken(c: string, i: nat, mask: string -> string): (r: Option<Token>)
    requires i <= |c|
    ensures r.Some? ==> i < r.value.end <= |c|
  {
    var begin := i + |Scheme(c, i)|;
    var j := StretchEnd(c, begin, Authority, MAX_AUTHORITY);
    if begin == i || j == begin then None
    else Some(Token(j, Scheme(c, i) + mask(AfterLast(c[begin..j], '@'))))
  }

  method MatchUrlAt(c: string, i: nat, mask: string -> string) returns (r: Option<Token>)
    requires i <= |c|
    ensures r == UrlToken(c, i, mask)
  {
    var scheme := Scheme(c, i);
    if scheme == "" {
      return None;
    }
    var begin := i + |scheme|;
    var j := SkipStretch(c, begin, Authority, MAX_AUTHORITY);
    if j == begin {
      return None;
    }
    var host := AfterLast(c[begin..j], '@');
    return Some(Token(j, scheme + mask(host)));
  }

  function BracketToken(c: string, i: nat, mask: string -> string): (r: Option<Token>)
    requires i <= |c|
    ensures r.Some? ==> i < r.value.end <= |c|
  {
    if i == |c| || c[i] != '[' then None
    else
      var j := StretchEnd(c, i + 1, V6, |c|);
      if j == |c| || c[j] != ']' || ':' !in c[i + 1..j] then None
      else Some(Token(PortEnd(c, j + 1), mask(c[i..PortEnd(c, j + 1)])))
  }

  /** The scan for the closing bracket: it gives up at any character that cannot be in an address. */
  method FindBracket(c: string, start: nat) returns (close: Option<nat>)
    requires start <= |c|
    ensures var j := StretchEnd(c, start, V6, |c|);
            close == if j == |c| || c[j] != ']' then None else Some(j)
  {
    var j := start;
    while j < |c| && c[j] != ']'
      invariant start <= j <= |c|
      invariant StretchEnd(c, j, V6, |c| - (j - start)) == StretchEnd(c, start, V6, |c|)
    {
      if !In(c[j], V6) {
        return None;
      }
      j := j + 1;
    }
    close := if j >= |c| then None else Some(j);
  }

  method MatchBracketedIpv6At(c: string, i: nat, mask: string -> string) returns (r: Option<Token>)
    requires i <= |c|
    ensures r == BracketToken(c, i, mask)
  {
    if i >= |c| || c[i] != '[' {
      return None;
    }
    var close := FindBracket(c, i + 1);
    if close.None? || ':' !in c[i + 1..close.value] {
      return None;
    }
    var end := ConsumePort(c, close.value + 1);
    return Some(Token(end, mask(c[i..end])));
  }

  /** An opening bracket, hex digits, colons and dots with at least one colon, and the closing bracket. */
  predicate BracketedAt(c: string, i: nat, j: nat) {
    && i < j < |c| && c[i] == '[' && c[j] == ']'
    && (forall k :: i < k < j ==> In(c[k], V6))
    && ':' in c[i + 1..j]
  }

  /** The bracket matcher decides that grammar, and takes the port behind it. */
  lemma BracketGrammar(c: string, i: nat, j: nat, mask: string -> string)
    requires i < j <= |c|
    ensures BracketedAt(c, i, j) <==>
              BracketToken(c, i, mask).Some? && StretchEnd(c, i + 1, V6, |c|) == j
    ensures BracketedAt(c, i, j) ==>
              BracketToken(c, i, mask) == Some(Token(PortEnd(c, j + 1), mask(c[i..PortEnd(c, j + 1)])))
  {
    StretchIsLongest(c, i + 1, V6, |c|, j);
  }

  /** Either no port stands there, or a colon and the first of at most five digits in a row do. */
  lemma PortGrammar(c: string, start: nat)
    requires start <= |c|
    ensures var end := PortEnd(c, start);
            if start + 1 < |c| && c[start] == ':' && IsDigit(c[start + 1])
            then start + 2 <= end && IsStretch(c, start + 1, Digit, 5, end)
            else end == start
  {
    if start + 1 < |c| && c[start] == ':' && IsDigit(c[start + 1]) {
      StretchIsLongest(c, start + 1, Digit, 5, PortEnd(c, start));
    }
  }

  // ---------------------------------------------------- plain addresses and names

  predicate AtBoundary(c: string, i: nat)
    requires i <= |c|
  {
    i == 0 || !IsHost(c[i - 1])
  }

  /** A token, with its port, that is not cut out of a longer word. */
  function Standing(c: string, i: nat, end: Option<nat>, mask: string -> string): (r: Option<Token>)
    requires i <= |c| && (end.Some? ==> i < end.value <= |c|)
    ensures r.Some? ==> i < r.value.end <= |c|
  {
    match end
    case None => None
    case Some(e) =>
      var p := PortEnd(c, e);
      if p == |c| || !IsHost(c[p]) then Some(Token(p, mask(c[i..p]))) else None
  }

  function Ipv4Token(c: string, i: nat, mask: string -> string): (r: Option<Token>)
    requires i < |c|
    ensures r.Some? ==> i < r.value.end <= |c|
  {
    if AtBoundary(c, i) && IsDigit(c[i]) then Standing(c, i, Ipv4End(c, i), mask) else None
  }

  function HostnameToken(c: string, i: nat, mask: string -> string): (r: Option<Token>)
    requires i < |c|
    ensures r.Some? ==> i < r.value.end <= |c|
  {
    if AtBoundary(c, i) && IsAlnum(c[i]) then Standing(c, i, HostnameEnd(c, i), mask) else None
  }

  method MatchIpv4At(c: string, i: nat, mask: string -> string) returns (r: Option<Token>)
    requires i < |c|
    ensures r == Ipv4Token(c, i, mask)
  {
    if AtBoundary(c, i) && IsDigit(c[i]) {
      var end := ParseIpv4At(c, i);
      if end.Some? {
        var p := ConsumePort(c, end.value);
        if p == |c| || !IsHost(c[p]) {
          return Some(Token(p, mask(c[i..p])));
        }
      }
    }
    return None;
  }

  method MatchHostnameAt(c: string, i: nat, mask: string -> string) returns (r: Option<Token>)
    requires i < |c|
    ensures r == HostnameToken(c, i, mask)
  {
    if AtBoundary(c, i) && IsAlnum(c[i]) {
      var end := ParseHostnameAt(c, i);
      if end.Some? {
        var p := ConsumePort(c, end.value);
        if p == |c| || !IsHost(c[p]) {
          return Some(Token(p, mask(c[i..p])));
        }
      }
    }
    return None;
  }
}
