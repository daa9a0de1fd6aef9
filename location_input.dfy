/** The coordinate readers of src/components/LocationInput.tsx:
    `parseLocationLink` (a shared map link or any text holding a pair) and
    `parseCoordinates` (typed coordinates), and the blank-name guard of
    `handleSubmit`. */
module LocationInput {
  import opened Types
  import opened Numbers
  import opened Patterns

  /** A parsed (latitude, longitude) pair. */
  datatype Coord = Coord(lat: real, lng: real)

  // ----- String.prototype.trim -----

  predicate AllSpace(s: string)
  {
    forall i :: 0 <= i < |s| ==> IsSpace(s[i])
  }

  lemma AllSpaceAppend(x: string, y: string)
    requires AllSpace(x) && AllSpace(y)
    ensures AllSpace(x + y)
  {
    forall i | 0 <= i < |x + y|
      ensures IsSpace((x + y)[i])
    {
      if i < |x| {
        assert (x + y)[i] == x[i];
      } else {
        assert (x + y)[i] == y[i - |x|];
      }
    }
  }

  function LeadingSpaces(s: string): (n: nat)
    ensures n <= |s| && AllSpace(s[..n])
    ensures n == |s| || !IsSpace(s[n])
  {
    if |s| > 0 && IsSpace(s[0]) then
      var n := LeadingSpaces(s[1..]);
      AllSpaceAppend([s[0]], s[1..][..n]);
      assert s[..1 + n] == [s[0]] + s[1..][..n];
      assert n == |s| - 1 || s[1 + n] == s[1..][n];
      1 + n
    else 0
  }

  function TrailingSpaces(s: string): (n: nat)
    ensures n <= |s| && AllSpace(s[|s| - n..])
    ensures n == |s| || !IsSpace(s[|s| - 1 - n])
  {
    if |s| > 0 && IsSpace(s[|s| - 1]) then
      var p := s[..|s| - 1];
      var n := TrailingSpaces(p);
      AllSpaceAppend(p[|p| - n..], [s[|s| - 1]]);
      assert s[|s| - (1 + n)..] == p[|p| - n..] + [s[|s| - 1]];
      assert n == |p| || s[|s| - 1 - (1 + n)] == p[|p| - 1 - n];
      1 + n
    else 0
  }

  /** s.trim(): s without its leading and trailing white space. */
  function Trim(s: string): (t: string)
    ensures |t| == 0 || (!IsSpace(t[0]) && !IsSpace(t[|t| - 1]))
  {
    var u := s[LeadingSpaces(s)..];
    u[..|u| - TrailingSpaces(u)]
  }

  lemma LeadingSpacesAre(s: string, m: nat)
    requires m <= |s| && AllSpace(s[..m]) && (m == |s| || !IsSpace(s[m]))
    ensures LeadingSpaces(s) == m
  {
    var r := LeadingSpaces(s);
    forall j | 0 <= j < m
      ensures IsSpace(s[j])
    {
      assert s[..m][j] == s[j];
    }
    forall j | 0 <= j < r
      ensures IsSpace(s[j])
    {
      assert s[..r][j] == s[j];
    }
  }

  lemma TrailingSpacesAre(s: string, m: nat)
    requires m <= |s| && AllSpace(s[|s| - m..]) && (m == |s| || !IsSpace(s[|s| - 1 - m]))
    ensures TrailingSpaces(s) == m
  {
    var r := TrailingSpaces(s);
    forall j | |s| - m <= j < |s|
      ensures IsSpace(s[j])
    {
      assert s[|s| - m..][j - (|s| - m)] == s[j];
    }
    forall j | |s| - r <= j < |s|
      ensures IsSpace(s[j])
    {
      assert s[|s| - r..][j - (|s| - r)] == s[j];
    }
  }

  /** Any split of s into white space, a text with no white space at either
      end, and white space, is the one trim finds. */
  lemma {:induction false} TrimUnique(a: string, t: string, b: string)
    requires AllSpace(a) && AllSpace(b)
    requires |t| == 0 || (!IsSpace(t[0]) && !IsSpace(t[|t| - 1]))
    ensures Trim(a + t + b) == t
  {
    var s := a + t + b;
    if |t| == 0 {
      assert s == a + b;
      assert s[..|s|] == s;
      LeadingSpacesAre(s, |s|);
    } else {
      assert s[..|a|] == a;
      assert s[|a|] == t[0];
      LeadingSpacesAre(s, |a|);
      var u := s[|a|..];
      assert u == t + b;
      assert u[|u| - |b|..] == b;
      assert u[|u| - 1 - |b|] == t[|t| - 1];
      TrailingSpacesAre(u, |b|);
      assert u[..|u| - |b|] == t;
    }
  }

  /** Where trim cuts s: white space, the trimmed text, white space. */
  lemma TrimSplit(s: string) returns (a: string, b: string)
    ensures AllSpace(a) && AllSpace(b)
    ensures s == a + Trim(s) + b
  {
    var l := LeadingSpaces(s);
    var u := s[l..];
    var n := TrailingSpaces(u);
    var t := u[..|u| - n];
    a := s[..l];
    b := u[|u| - n..];
    assert AllSpace(a) && AllSpace(b);
    CutThree(s, l, |u| - n);
    assert s == a + t + b;
    assert Trim(s) == t;
  }

  /** s cut at l, and its rest cut at k, glued back together. */
  lemma CutThree(s: string, l: nat, k: nat)
    requires l + k <= |s|
    ensures s == s[..l] + s[l..][..k] + s[l..][k..]
  {
    assert s[l..] == s[l..][..k] + s[l..][k..];
    assert s == s[..l] + s[l..];
  }

  /** White space added around a text never changes what trim returns. */
  lemma {:induction false} TrimPadded(w1: string, s: string, w2: string)
    requires AllSpace(w1) && AllSpace(w2)
    ensures Trim(w1 + s + w2) == Trim(s)
  {
    var a, b := TrimSplit(s);
    var t := Trim(s);
    Regroup(w1, a, t, b, w2);
    AllSpaceAppend(w1, a);
    AllSpaceAppend(b, w2);
    TrimUnique(w1 + a, t, b + w2);
  }

  lemma Regroup(w1: string, a: string, t: string, b: string, w2: string)
    ensures w1 + (a + t + b) + w2 == (w1 + a) + t + (b + w2)
  {
  }

  /** handleSubmit stops at once unless the name holds a character that is
      not white space. */
  predicate NameGiven(name: string)
  {
    Trim(name) != ""
  }

  /** The name is refused exactly when it is empty or all white space. */
  lemma {:induction false} NameGivenIff(name: string)
    ensures NameGiven(name) <==> !AllSpace(name)
  {
    if AllSpace(name) {
      assert name == name + "" + "";
      TrimUnique(name, "", "");
    } else {
      var a, b := TrimSplit(name);
    }
  }

  // ----- The patterns, item by item -----

  /** The items of a literal text, each matched once. */
  function Lits(t: string): (items: seq<Item>)
    ensures |items| == |t|
    ensures forall i :: 0 <= i < |t| ==> items[i] == Atom(Lit(t[i]), One)
  {
    seq(|t|, i requires 0 <= i < |t| => Atom(Lit(t[i]), One))
  }

  /** -?\d+\.?\d* : a number as the link and coordinate patterns read it. */
  const Number: seq<Item> := [Atom(Lit('-'), Opt), Atom(Digit, Plus), Atom(Lit('.'), Opt), Atom(Digit, Star)]

  /** -?\d+\.?\d+ : a number as the fallback reads it. */
  const LongNumber: seq<Item> := [Atom(Lit('-'), Opt), Atom(Digit, Plus), Atom(Lit('.'), Opt), Atom(Digit, Plus)]

  /** (-?\d+\.?\d*) */
  const NumberGroup: seq<Item> := [Open] + Number + [Close]

  /** .*[?&]q=(-?\d+\.?\d*),(-?\d+\.?\d*) : a `q` query parameter holding a pair. */
  const QueryPair: seq<Item> :=
    [Atom(AnyButNewline, Star), Atom(OneOf("?&"), One)] + Lits("q=") + NumberGroup + Lits(",") + NumberGroup

  /** /maps\.google\.com\/.*[?&]q=(...),(...)/i */
  const GoogleQuery := Pattern(Lits("maps.google.com/") + QueryPair, true)

  /** /google\.com\/maps\/@(...),(...)/i */
  const GoogleAt := Pattern(Lits("google.com/maps/@") + NumberGroup + Lits(",") + NumberGroup, true)

  /** /maps\.app\.goo\.gl/i : it has no groups. */
  const ShortLink := Pattern(Lits("maps.app.goo.gl"), true)

  /** /maps\.google\.com\/\?q=(...),(...)/i */
  const GoogleShare := Pattern(Lits("maps.google.com/?q=") + NumberGroup + Lits(",") + NumberGroup, true)

  /** /maps\.apple\.com\/.*[?&]q=(...),(...)/i */
  const AppleQuery := Pattern(Lits("maps.apple.com/") + QueryPair, true)

  /** /^(-?\d+\.?\d*),\s*(-?\d+\.?\d*)$/ : the whole text is "lat,lng"; the
      link list and the coordinate list both hold it. */
  const CommaPair := Pattern([InputStart] + NumberGroup + Lits(",") + [Atom(Space, Star)] + NumberGroup + [InputEnd], false)

  /** /Location:\s*https?:\/\/.*[?&]q=(...),(...)/i */
  const LabelledLink := Pattern(
    Lits("Location:") + [Atom(Space, Star)] + Lits("http") + [Atom(Lit('s'), Opt)] + Lits("://") + QueryPair, true)

  /** /waze\.com\/.*[?&]q=(...),(...)/i */
  const WazeQuery := Pattern(Lits("waze.com/") + QueryPair, true)

  /** The link patterns, in the order parseLocationLink tries them. */
  const LinkPatterns: seq<Pattern> :=
    [GoogleQuery, GoogleAt, ShortLink, GoogleShare, AppleQuery, CommaPair, LabelledLink, WazeQuery]

  /** /(-?\d+\.?\d+),\s*(-?\d+\.?\d+)/ : a pair anywhere in the text. */
  const Fallback := Pattern([Open] + LongNumber + [Close] + Lits(",") + [Atom(Space, Star), Open] + LongNumber + [Close], false)

  /** /^(-?\d+\.?\d*)\s+(-?\d+\.?\d*)$/ : "lat lng". */
  const SpacePair := Pattern([InputStart] + NumberGroup + [Atom(Space, Plus)] + NumberGroup + [InputEnd], false)

  /** /^lat:\s*(-?\d+\.?\d*),?\s*lng:\s*(-?\d+\.?\d*)$/i : "lat: x, lng: y". */
  const LabelledPair := Pattern(
    [InputStart] + Lits("lat:") + [Atom(Space, Star)] + NumberGroup + [Atom(Lit(','), Opt), Atom(Space, Star)]
    + Lits("lng:") + [Atom(Space, Star)] + NumberGroup + [InputEnd], true)

  /** /^(-?\d+\.?\d*)°?\s*[NS]?,?\s*(-?\d+\.?\d*)°?\s*[EW]?$/i : degrees. */
  const DegreesPair := Pattern(
    [InputStart] + NumberGroup + [Atom(Lit('°'), Opt), Atom(Space, Star), Atom(OneOf("NS"), Opt), Atom(Lit(','), Opt), Atom(Space, Star)]
    + NumberGroup + [Atom(Lit('°'), Opt), Atom(Space, Star), Atom(OneOf("EW"), Opt), InputEnd], true)

  /** The coordinate patterns, in the order parseCoordinates tries them. */
  const CoordinatePatterns: seq<Pattern> := [CommaPair, SpacePair, LabelledPair, DegreesPair]

  // ----- Reading a match -----

  /** match[n + 1]: the text of group n + 1, or None for `undefined`. */
  function Group(caps: seq<string>, n: nat): Option<string>
  {
    if n < |caps| then Some(caps[n]) else None
  }

  /** parseFloat of a group: None stands for NaN (an undefined group or a
      text that is not a number). */
  function FloatOf(g: Option<string>): Option<real>
  {
    match g
    case None => None
    case Some(t) => TokenValue(t)
  }

  predicate InRange(lat: real, lng: real)
  {
    -90.0 <= lat <= 90.0 && -180.0 <= lng <= 180.0
  }

  /** The range test on the two parsed numbers; every comparison with NaN is false. */
  function Validate(a: Option<string>, b: Option<string>): (r: Option<Coord>)
    ensures r.Some? <==> FloatOf(a).Some? && FloatOf(b).Some? && InRange(FloatOf(a).value, FloatOf(b).value)
    ensures r.Some? ==> r.value == Coord(FloatOf(a).value, FloatOf(b).value)
  {
    match (FloatOf(a), FloatOf(b))
    case (Some(lat), Some(lng)) => if InRange(lat, lng) then Some(Coord(lat, lng)) else None
    case _ => None
  }

  /** `match[1] && match[2]`: both groups exist and are not empty. */
  predicate BothGroups(caps: seq<string>)
  {
    |caps| >= 2 && |caps[0]| > 0 && |caps[1]| > 0
  }

  /** One pass of a parser's loop: match, optionally test both groups, then
      validate the pair. */
  function TryPattern(p: Pattern, s: string, testGroups: bool): Option<Coord>
  {
    match Exec(p, s)
    case None => None
    case Some(caps) =>
      if testGroups && !BothGroups(caps) then None
      else Validate(Group(caps, 0), Group(caps, 1))
  }

  /** The loop over a pattern list: the first validated pair. */
  function FirstOf(pats: seq<Pattern>, s: string, testGroups: bool): (r: Option<Coord>)
    ensures r.Some? ==> InRange(r.value.lat, r.value.lng)
  {
    if |pats| == 0 then None
    else
      match TryPattern(pats[0], s, testGroups)
      case Some(c) => Some(c)
      case None => FirstOf(pats[1..], s, testGroups)
  }

  /** parseLocationLink(link). */
  function ParseLocationLink(link: string): Option<Coord>
  {
    var clean := Trim(link);
    match FirstOf(LinkPatterns, clean, true)
    case Some(c) => Some(c)
    case None => TryPattern(Fallback, clean, false)
  }

  /** parseCoordinates(coordString). */
  function ParseCoordinates(coordString: string): Option<Coord>
  {
    FirstOf(CoordinatePatterns, Trim(coordString), false)
  }

  // ----- What the parsers promise -----

  /** Both parsers only ever return a latitude in [-90, 90] and a longitude
      in [-180, 180]. */
  lemma ParsersInRange(text: string)
    ensures var r := ParseLocationLink(text); r.Some? ==> InRange(r.value.lat, r.value.lng)
    ensures var r := ParseCoordinates(text); r.Some? ==> InRange(r.value.lat, r.value.lng)
  {
    var clean := Trim(text);
    if FirstOf(LinkPatterns, clean, true).None? {
      var r := TryPattern(Fallback, clean, false);
      if r.Some? {
        var caps := Exec(Fallback, clean).value;
        assert r == Validate(Group(caps, 0), Group(caps, 1));
      }
    }
  }

  /** The loop returns the validated pair of the first pattern that gives
      one, and None exactly when no pattern does. */
  lemma {:induction false} FirstOfFirst(pats: seq<Pattern>, s: string, testGroups: bool, i: nat)
    requires i < |pats| && TryPattern(pats[i], s, testGroups).Some?
    requires forall j :: 0 <= j < i ==> TryPattern(pats[j], s, testGroups).None?
    ensures FirstOf(pats, s, testGroups) == TryPattern(pats[i], s, testGroups)
  {
    if i > 0 {
      assert TryPattern(pats[0], s, testGroups).None?;
      assert forall j :: 0 <= j < i - 1 ==> pats[1..][j] == pats[j + 1];
      FirstOfFirst(pats[1..], s, testGroups, i - 1);
    }
  }

  lemma {:induction false} FirstOfNone(pats: seq<Pattern>, s: string, testGroups: bool)
    ensures FirstOf(pats, s, testGroups).None?
        <==> forall j :: 0 <= j < |pats| ==> TryPattern(pats[j], s, testGroups).None?
  {
    if |pats| > 0 {
      FirstOfNone(pats[1..], s, testGroups);
      assert forall j :: 0 < j < |pats| ==> pats[j] == pats[1..][j - 1];
    }
  }

  /** parseLocationLink falls back to a pair anywhere in the text only when no
      listed pattern validates, and returns None when that fails too. */
  lemma ParseLocationLinkFallback(link: string)
    ensures var clean := Trim(link);
      (forall j :: 0 <= j < |LinkPatterns| ==> TryPattern(LinkPatterns[j], clean, true).None?)
      ==> ParseLocationLink(link) == TryPattern(Fallback, clean, false)
    ensures var clean := Trim(link);
      ParseLocationLink(link).None?
      <==> (forall j :: 0 <= j < |LinkPatterns| ==> TryPattern(LinkPatterns[j], clean, true).None?)
           && TryPattern(Fallback, clean, false).None?
  {
    FirstOfNone(LinkPatterns, Trim(link), true);
  }

  /** White space around the text never changes either parser's result. */
  lemma TrimInvariance(w1: string, text: string, w2: string)
    requires AllSpace(w1) && AllSpace(w2)
    ensures ParseLocationLink(w1 + text + w2) == ParseLocationLink(text)
    ensures ParseCoordinates(w1 + text + w2) == ParseCoordinates(text)
  {
    TrimPadded(w1, text, w2);
  }

  lemma {:induction false} CloseCountLits(t: string)
    ensures CloseCount(Lits(t)) == 0
  {
    if |t| > 0 {
      assert Lits(t)[0] != Close;
      assert Lits(t)[1..] == Lits(t[1..]);
      CloseCountLits(t[1..]);
    }
  }

  /** The maps.app.goo.gl pattern captures no group, so it fails the
      `match[1] && match[2]` test on every text. */
  lemma ShortLinkNeverYields(s: string)
    ensures TryPattern(ShortLink, s, true) == None
  {
    CloseCountLits("maps.app.goo.gl");
    ExecCaptures(ShortLink, s);
  }

  // ----- What the patterns accept -----

  /** A greedy atom that finds no character of its class at pos and may
      match zero times steps over. */
  lemma SkipAtom(items: seq<Item>, ic: bool, s: string, pos: nat, open: nat, caps: seq<string>)
    requires open <= pos <= |s| && |items| > 0 && items[0].Atom? && MinCount(items[0].q) == 0
    requires pos == |s| || !ClassHas(items[0].cls, ic, s[pos])
    ensures MatchAt(items, ic, s, pos, open, caps) == MatchAt(items[1..], ic, s, pos, open, caps)
  {
    RunIs(items[0].cls, ic, s, pos, MaxCount(items[0].q, s, pos), 0);
  }

  /** The text of a number token: an optional minus, digits, and optionally a
      point followed by digits. */
  predicate IsNumberText(t: string)
  {
    TokenValue(t).Some?
  }

  /** The parts of a number token: sign length, integer digits, and whether
      a point follows. */
  lemma NumberParts(t: string) returns (sgn: nat, k: nat)
    requires IsNumberText(t)
    ensures sgn <= 1 && 0 < k && sgn + k <= |t|
    ensures sgn == 1 <==> t[0] == '-'
    ensures forall j :: sgn <= j < sgn + k ==> IsDigit(t[j])
    ensures sgn + k < |t| ==> t[sgn + k] == '.' && forall j :: sgn + k < j < |t| ==> IsDigit(t[j])
  {
    sgn := if t[0] == '-' then 1 else 0;
    var u := t[sgn..];
    k := DigitRun(u, 0);
    assert forall j :: sgn <= j < sgn + k ==> t[j] == u[0..k][j - sgn];
    if k < |u| {
      assert forall j :: sgn + k < j < |t| ==> t[j] == u[k + 1..][j - sgn - k - 1];
    }
  }

  /** `\.?\d*` takes a point and the digits after it, or nothing when no
      point follows. */
  lemma {:induction false} FractionTaken(rest: seq<Item>, ic: bool, s: string, p: nat, open: nat, caps: seq<string>, m: nat)
    requires open <= p && p + m <= |s|
    requires m == 0 ==> p == |s| || (!IsDigit(s[p]) && s[p] != '.')
    requires m > 0 ==> s[p] == '.' && (forall j :: p < j < p + m ==> IsDigit(s[j]))
                       && (p + m == |s| || !IsDigit(s[p + m]))
    requires MatchAt(rest, ic, s, p + m, open, caps).Some?
    ensures MatchAt([Atom(Lit('.'), Opt), Atom(Digit, Star)] + rest, ic, s, p, open, caps)
         == MatchAt(rest, ic, s, p + m, open, caps)
  {
    var r4 := [Atom(Digit, Star)] + rest;
    var r3 := [Atom(Lit('.'), Opt)] + r4;
    assert r3 == [Atom(Lit('.'), Opt), Atom(Digit, Star)] + rest;
    assert r4[1..] == rest && r3[1..] == r4;
    if m == 0 {
      GreedyStep(r4, ic, s, p, open, caps, 0);
      GreedyStep(r3, ic, s, p, open, caps, 0);
    } else {
      GreedyStep(r4, ic, s, p + 1, open, caps, m - 1);
      GreedyStep(r3, ic, s, p, open, caps, 1);
    }
  }

  /** `-?\d+` takes the sign and the integer digits. */
  lemma {:induction false} IntegerTaken(rest: seq<Item>, ic: bool, s: string, pos: nat, open: nat, caps: seq<string>, sgn: nat, k: nat)
    requires open <= pos && sgn <= 1 && 0 < k && pos + sgn + k <= |s|
    requires sgn == 1 <==> s[pos] == '-'
    requires forall j :: pos + sgn <= j < pos + sgn + k ==> IsDigit(s[j])
    requires pos + sgn + k == |s| || !IsDigit(s[pos + sgn + k])
    requires MatchAt(rest, ic, s, pos + sgn + k, open, caps).Some?
    ensures MatchAt([Atom(Lit('-'), Opt), Atom(Digit, Plus)] + rest, ic, s, pos, open, caps)
         == MatchAt(rest, ic, s, pos + sgn + k, open, caps)
  {
    var r2 := [Atom(Digit, Plus)] + rest;
    var r1 := [Atom(Lit('-'), Opt)] + r2;
    assert r1 == [Atom(Lit('-'), Opt), Atom(Digit, Plus)] + rest;
    assert r2[1..] == rest && r1[1..] == r2;
    GreedyStep(r2, ic, s, pos + sgn, open, caps, k);
    GreedyStep(r1, ic, s, pos, open, caps, sgn);
  }

  /** The parts of a number token read in place inside a longer text. */
  lemma NumberPartsAt(s: string, pos: nat, n: nat) returns (sgn: nat, k: nat)
    requires pos + n <= |s| && IsNumberText(s[pos..pos + n])
    ensures sgn <= 1 && 0 < k && sgn + k <= n
    ensures sgn == 1 <==> s[pos] == '-'
    ensures forall j :: pos + sgn <= j < pos + sgn + k ==> IsDigit(s[j])
    ensures pos + sgn + k < pos + n ==> s[pos + sgn + k] == '.'
    ensures forall j :: pos + sgn + k < j < pos + n ==> IsDigit(s[j])
  {
    var t := s[pos..pos + n];
    sgn, k := NumberParts(t);
    var p2 := pos + sgn + k;
    assert s[pos] == t[0];
    forall j | pos + sgn <= j < p2
      ensures IsDigit(s[j])
    {
      assert s[j] == t[j - pos];
    }
    if p2 < pos + n {
      assert s[p2] == t[sgn + k];
    }
    forall j | p2 < j < pos + n
      ensures IsDigit(s[j])
    {
      assert s[j] == t[j - pos];
    }
  }

  lemma NumberItems(rest: seq<Item>)
    ensures Number + rest == [Atom(Lit('-'), Opt), Atom(Digit, Plus)] + ([Atom(Lit('.'), Opt), Atom(Digit, Star)] + rest)
  {
  }

  /** The number pattern -?\d+\.?\d* takes a whole number token when the
      character after it is neither a digit nor a point. */
  lemma {:induction false} NumberTaken(rest: seq<Item>, ic: bool, s: string, pos: nat, open: nat, caps: seq<string>, n: nat)
    requires open <= pos && pos + n <= |s| && IsNumberText(s[pos..pos + n])
    requires pos + n == |s| || (!IsDigit(s[pos + n]) && s[pos + n] != '.')
    requires MatchAt(rest, ic, s, pos + n, open, caps).Some?
    ensures MatchAt(Number + rest, ic, s, pos, open, caps) == MatchAt(rest, ic, s, pos + n, open, caps)
  {
    var sgn, k := NumberPartsAt(s, pos, n);
    var p2 := pos + sgn + k;
    FractionTaken(rest, ic, s, p2, open, caps, pos + n - p2);
    IntegerTaken([Atom(Lit('.'), Opt), Atom(Digit, Star)] + rest, ic, s, pos, open, caps, sgn, k);
    NumberItems(rest);
  }

  /** A number token has no white space or letter at either end. */
  lemma NumberEnds(t: string)
    requires IsNumberText(t)
    ensures |t| > 0 && (IsDigit(t[0]) || t[0] == '-') && (IsDigit(t[|t| - 1]) || t[|t| - 1] == '.')
    ensures forall j :: 0 <= j < |t| ==> IsDigit(t[j]) || t[j] == '-' || t[j] == '.'
  {
    var sgn, k := NumberParts(t);
  }

  /** A group around the number pattern captures a whole number token. */
  lemma {:induction false} NumberGroupTaken(rest: seq<Item>, ic: bool, s: string, pos: nat, open: nat, caps: seq<string>, n: nat)
    requires open <= pos && pos + n <= |s| && IsNumberText(s[pos..pos + n])
    requires pos + n == |s| || (!IsDigit(s[pos + n]) && s[pos + n] != '.')
    requires MatchAt(rest, ic, s, pos + n, pos, caps + [s[pos..pos + n]]).Some?
    ensures MatchAt(NumberGroup + rest, ic, s, pos, open, caps)
         == MatchAt(rest, ic, s, pos + n, pos, caps + [s[pos..pos + n]])
  {
    var r := [Close] + rest;
    assert r[1..] == rest;
    NumberTaken(r, ic, s, pos, pos, caps, n);
    assert NumberGroup + rest == [Open] + (Number + r);
  }

  /** `,\s*` takes the comma and all the white space after it. */
  lemma {:induction false} CommaSpacesTaken(rest: seq<Item>, ic: bool, s: string, pos: nat, open: nat, caps: seq<string>, m: nat)
    requires open <= pos && pos + 1 + m <= |s| && s[pos] == ','
    requires forall j :: pos + 1 <= j < pos + 1 + m ==> IsSpace(s[j])
    requires pos + 1 + m == |s| || !IsSpace(s[pos + 1 + m])
    requires MatchAt(rest, ic, s, pos + 1 + m, open, caps).Some?
    ensures MatchAt([Atom(Lit(','), One), Atom(Space, Star)] + rest, ic, s, pos, open, caps)
         == MatchAt(rest, ic, s, pos + 1 + m, open, caps)
  {
    var r2 := [Atom(Space, Star)] + rest;
    var r1 := [Atom(Lit(','), One)] + r2;
    assert r2[1..] == rest && r1[1..] == r2;
    assert r1 == [Atom(Lit(','), One), Atom(Space, Star)] + rest;
    GreedyStep(r2, ic, s, pos + 1, open, caps, m);
    GreedyStep(r1, ic, s, pos, open, caps, 1);
  }

  /** `$` at the end of the text completes the match. */
  lemma EndTaken(ic: bool, s: string, open: nat, caps: seq<string>)
    requires open <= |s|
    ensures MatchAt([InputEnd], ic, s, |s|, open, caps) == Some(caps)
  {
    assert [InputEnd][1..] == [];
  }

  /** `^` at the start of the text is passed over. */
  lemma StartTaken(rest: seq<Item>, ic: bool, s: string, caps: seq<string>)
    ensures MatchAt([InputStart] + rest, ic, s, 0, 0, caps) == MatchAt(rest, ic, s, 0, 0, caps)
  {
    assert ([InputStart] + rest)[1..] == rest;
  }

  /** The part of CommaPair after the first number: the comma, the white
      space, the second number and the end of the text. */
  const CommaPairRest: seq<Item> := [Atom(Lit(','), One), Atom(Space, Star)] + NumberGroup + [InputEnd]

  lemma CommaPairItems()
    ensures CommaPair.items == [InputStart] + (NumberGroup + CommaPairRest)
  {
    assert Lits(",") == [Atom(Lit(','), One)];
  }

  /** The second number of "lat,lng", from the end of the text back. */
  lemma {:induction false} SecondNumberTaken(s: string, pb: nat, a: string, b: string)
    requires pb + |b| == |s| && s[pb..] == b && IsNumberText(b)
    ensures MatchAt(NumberGroup + [InputEnd], false, s, pb, 0, [a]) == Some([a, b])
  {
    EndTaken(false, s, pb, [a] + [b]);
    assert [a] + [b] == [a, b];
    assert s[pb..pb + |b|] == b;
    NumberGroupTaken([InputEnd], false, s, pb, 0, [a], |b|);
  }

  /** From the comma of "lat,lng" on. */
  lemma {:induction false} CommaPairRestAt(s: string, pa: nat, pb: nat, a: string, b: string)
    requires pa < pb && pb + |b| == |s| && s[pa] == ',' && s[pb..] == b && IsNumberText(b)
    requires forall j :: pa + 1 <= j < pb ==> IsSpace(s[j])
    ensures MatchAt(CommaPairRest, false, s, pa, 0, [a]) == Some([a, b])
  {
    NumberEnds(b);
    assert s[pb] == b[0];
    SecondNumberTaken(s, pb, a, b);
    assert CommaPairRest == [Atom(Lit(','), One), Atom(Space, Star)] + (NumberGroup + [InputEnd]);
    CommaSpacesTaken(NumberGroup + [InputEnd], false, s, pa, 0, [a], pb - pa - 1);
  }

  lemma {:induction false} CommaPairRestTaken(a: string, w: string, b: string)
    requires IsNumberText(a) && IsNumberText(b) && AllSpace(w)
    ensures var s := a + "," + w + b;
      MatchAt(CommaPairRest, false, s, |a|, 0, [a]) == Some([a, b])
  {
    var s := a + "," + w + b;
    var pa := |a|;
    var pb := pa + 1 + |w|;
    assert s[pa] == ',' && s[pb..] == b;
    assert forall j :: pa + 1 <= j < pb ==> s[j] == w[j - pa - 1];
    CommaPairRestAt(s, pa, pb, a, b);
  }

  /** A pattern anchored at the start whose first group is a number captures
      the number token that opens the text, then goes on with the rest. */
  lemma {:induction false} AnchoredFirstGroup(p: Pattern, rest: seq<Item>, s: string, a: string)
    requires p.items == [InputStart] + (NumberGroup + rest)
    requires IsNumberText(a) && |a| <= |s| && s[..|a|] == a
    requires |a| == |s| || (!IsDigit(s[|a|]) && s[|a|] != '.')
    requires MatchAt(rest, p.ignoreCase, s, |a|, 0, [a]).Some?
    ensures Exec(p, s) == MatchAt(rest, p.ignoreCase, s, |a|, 0, [a])
  {
    assert [] + [s[0..|a|]] == [a];
    NumberGroupTaken(rest, p.ignoreCase, s, 0, 0, [], |a|);
    StartTaken(NumberGroup + rest, p.ignoreCase, s, []);
    ExecAnchored(p, s);
  }

  /** "lat,lng" with any white space after the comma: CommaPair captures the
      two numbers. */
  lemma {:induction false} CommaPairMatches(a: string, w: string, b: string)
    requires IsNumberText(a) && IsNumberText(b) && AllSpace(w)
    ensures Exec(CommaPair, a + "," + w + b) == Some([a, b])
  {
    var s := a + "," + w + b;
    assert s[..|a|] == a && s[|a|] == ',';
    CommaPairRestTaken(a, w, b);
    CommaPairItems();
    AnchoredFirstGroup(CommaPair, CommaPairRest, s, a);
  }

  /** No letter at all. */
  predicate NoLetters(s: string)
  {
    forall j :: 0 <= j < |s| ==> !('a' <= s[j] <= 'z') && !('A' <= s[j] <= 'Z')
  }

  /** A pattern that starts with a letter (matched ignoring case) finds no
      match in a text without letters. */
  lemma LetterPatternFails(p: Pattern, s: string)
    requires |p.items| > 0 && p.ignoreCase && NoLetters(s)
    requires p.items[0].Atom? && p.items[0].q == One && p.items[0].cls.Lit? && 'a' <= p.items[0].cls.c <= 'z'
    ensures Exec(p, s) == None
  {
    ExecNeeds(p, s, 0);
  }

  lemma NoLettersAppend(x: string, y: string)
    requires NoLetters(x) && NoLetters(y)
    ensures NoLetters(x + y)
  {
    assert forall j :: |x| <= j < |x + y| ==> (x + y)[j] == y[j - |x|];
  }

  lemma NumberNoLetters(t: string)
    requires IsNumberText(t)
    ensures NoLetters(t)
  {
    NumberEnds(t);
  }

  lemma SpacesNoLetters(w: string)
    requires AllSpace(w)
    ensures NoLetters(w)
  {
  }

  lemma NumberCharNotSpace(c: char)
    requires IsDigit(c) || c == '-' || c == '.'
    ensures !IsSpace(c)
  {
  }

  /** "lat,lng" text starts and ends with a number character, so trimming
      leaves it as it is. */
  lemma {:induction false} CommaPairTrimmed(a: string, w: string, b: string)
    requires IsNumberText(a) && IsNumberText(b)
    ensures var s := a + "," + w + b; Trim(s) == s
  {
    var s := a + "," + w + b;
    NumberEnds(a);
    NumberEnds(b);
    assert s[0] == a[0] && s[|s| - 1] == b[|b| - 1];
    NumberCharNotSpace(a[0]);
    NumberCharNotSpace(b[|b| - 1]);
    assert s == "" + s + "";
    TrimUnique("", s, "");
  }

  /** "lat,lng" text holds no letter. */
  lemma {:induction false} CommaPairNoLetters(a: string, w: string, b: string)
    requires IsNumberText(a) && IsNumberText(b) && AllSpace(w)
    ensures NoLetters(a + "," + w + b)
  {
    NumberNoLetters(a);
    NumberNoLetters(b);
    SpacesNoLetters(w);
    NoLettersAppend(a, ",");
    NoLettersAppend(a + ",", w);
    NoLettersAppend(a + "," + w, b);
  }

  lemma CommaPairText(a: string, w: string, b: string)
    requires IsNumberText(a) && IsNumberText(b) && AllSpace(w)
    ensures var s := a + "," + w + b; Trim(s) == s && NoLetters(s)
  {
    CommaPairTrimmed(a, w, b);
    CommaPairNoLetters(a, w, b);
  }

  /** parseCoordinates reads "lat,lng" (white space allowed after the comma)
      as the two numbers whenever they are in range. */
  lemma {:induction false} CommaPairCoordinates(a: string, w: string, b: string)
    requires IsNumberText(a) && IsNumberText(b) && AllSpace(w)
    requires InRange(TokenValue(a).value, TokenValue(b).value)
    ensures ParseCoordinates(a + "," + w + b) == Some(Coord(TokenValue(a).value, TokenValue(b).value))
  {
    var s := a + "," + w + b;
    CommaPairText(a, w, b);
    CommaPairMatches(a, w, b);
    assert TryPattern(CommaPair, s, false).Some?;
    FirstOfFirst(CoordinatePatterns, s, false, 0);
  }

  /** parseLocationLink reads the same text the same way: the five link
      patterns tried before it all need letters. */
  lemma {:induction false} CommaPairLink(a: string, w: string, b: string)
    requires IsNumberText(a) && IsNumberText(b) && AllSpace(w)
    requires InRange(TokenValue(a).value, TokenValue(b).value)
    ensures ParseLocationLink(a + "," + w + b) == Some(Coord(TokenValue(a).value, TokenValue(b).value))
  {
    var s := a + "," + w + b;
    CommaPairText(a, w, b);
    CommaPairMatches(a, w, b);
    NumberEnds(a);
    NumberEnds(b);
    assert BothGroups([a, b]);
    assert TryPattern(CommaPair, s, true).Some?;
    LetterPatternFails(GoogleQuery, s);
    LetterPatternFails(GoogleAt, s);
    LetterPatternFails(ShortLink, s);
    LetterPatternFails(GoogleShare, s);
    LetterPatternFails(AppleQuery, s);
    FirstOfFirst(LinkPatterns, s, true, 5);
  }
}
