/** What the coordinate readers of src/components/LocationInput.tsx make of
    the typed forms other than "lat,lng": "lat lng", "lat: x, lng: y", a
    bare run of digits, and the two-digit rule of the fallback. */
module CoordinateForms {
  import opened Types
  import opened Numbers
  import opened Patterns
  import opened LocationInput

  // ----- Steps shared by the forms -----

  /** A text whose first and last characters are not white space is its own
      trim. */
  lemma Untrimmed(s: string)
    requires |s| > 0 && !IsSpace(s[0]) && !IsSpace(s[|s| - 1])
    ensures Trim(s) == s
  {
    assert s == "" + s + "";
    TrimUnique("", s, "");
  }

  /** White space placed at p in s. */
  lemma SpacesAt(s: string, p: nat, w: string)
    requires AllSpace(w) && p + |w| <= |s| && s[p..p + |w|] == w
    ensures forall j :: p <= j < p + |w| ==> IsSpace(s[j])
  {
    assert forall j :: p <= j < p + |w| ==> s[j] == w[j - p];
  }

  /** A `\s*` or `\s+` atom takes all the white space in front of it. */
  lemma SpacesTaken(q: Quant, rest: seq<Item>, ic: bool, s: string, pos: nat, open: nat, caps: seq<string>, m: nat)
    requires q == Star || (q == Plus && m > 0)
    requires open <= pos && pos + m <= |s|
    requires forall j :: pos <= j < pos + m ==> IsSpace(s[j])
    requires pos + m == |s| || !IsSpace(s[pos + m])
    requires MatchAt(rest, ic, s, pos + m, open, caps).Some?
    ensures MatchAt([Atom(Space, q)] + rest, ic, s, pos, open, caps) == MatchAt(rest, ic, s, pos + m, open, caps)
  {
    assert ([Atom(Space, q)] + rest)[1..] == rest;
    GreedyStep([Atom(Space, q)] + rest, ic, s, pos, open, caps, m);
  }

  /** The last number of a text and the `$` after it. */
  lemma {:induction false} LastNumberTaken(ic: bool, s: string, pb: nat, open: nat, caps: seq<string>, b: string)
    requires open <= pb && pb + |b| == |s| && s[pb..] == b && IsNumberText(b)
    ensures MatchAt(NumberGroup + [InputEnd], ic, s, pb, open, caps) == Some(caps + [b])
  {
    EndTaken(ic, s, pb, caps + [b]);
    assert s[pb..pb + |b|] == b;
    NumberGroupTaken([InputEnd], ic, s, pb, open, caps, |b|);
  }

  /** White space, then the last number of the text. */
  lemma {:induction false} SpacesThenLast(q: Quant, ic: bool, s: string, p: nat, open: nat, a: string, w: string, b: string)
    requires q == Star || (q == Plus && |w| > 0)
    requires AllSpace(w) && IsNumberText(b)
    requires open <= p <= |s| && p + |w| + |b| == |s| && s[p..] == w + b
    ensures MatchAt([Atom(Space, q)] + (NumberGroup + [InputEnd]), ic, s, p, open, [a]) == Some([a, b])
  {
    var pb := p + |w|;
    NumberEnds(b);
    assert s[pb..] == b && s[pb] == b[0];
    assert forall j :: p <= j < pb ==> s[j] == w[j - p];
    NumberCharNotSpace(b[0]);
    LastNumberTaken(ic, s, pb, open, [a], b);
    assert [a] + [b] == [a, b];
    SpacesTaken(q, NumberGroup + [InputEnd], ic, s, p, open, [a], |w|);
  }

  /** A number token followed by white space and a number token. */
  predicate IsSpacePairText(a: string, w: string, b: string)
  {
    IsNumberText(a) && IsNumberText(b) && AllSpace(w) && |w| > 0
  }

  /** The characters of number tokens and white space, which hold no comma. */
  lemma NoComma(a: string, w: string, b: string)
    requires IsNumberText(a) && IsNumberText(b) && AllSpace(w)
    ensures Absent(Lit(','), false, a + w + b, 0)
  {
    NumberEnds(a);
    NumberEnds(b);
    var s := a + w + b;
    assert forall j :: 0 <= j < |a| ==> s[j] == a[j];
    assert forall j :: |a| <= j < |a| + |w| ==> s[j] == w[j - |a|];
    assert forall j :: |a| + |w| <= j < |s| ==> s[j] == b[j - |a| - |w|];
  }

  /** A number group fails where the text holds neither a digit nor a minus. */
  lemma NumberGroupFails(rest: seq<Item>, ic: bool, s: string, pos: nat, open: nat, caps: seq<string>)
    requires open <= pos < |s| && !IsDigit(s[pos]) && s[pos] != '-'
    ensures MatchAt(NumberGroup + rest, ic, s, pos, open, caps) == None
  {
    var r2 := [Atom(Digit, Plus), Atom(Lit('.'), Opt), Atom(Digit, Star), Close] + rest;
    var r1 := [Atom(Lit('-'), Opt)] + r2;
    assert NumberGroup + rest == [Open] + r1;
    assert ([Open] + r1)[1..] == r1 && r1[1..] == r2;
    SkipAtom(r1, ic, s, pos, pos, caps);
    RunIs(Digit, ic, s, pos, |s| - pos, 0);
  }

  /** A pattern that opens with `^` and a number group finds no match in a
      text that starts with neither a digit nor a minus. */
  lemma AnchoredNumberFails(p: Pattern, rest: seq<Item>, s: string)
    requires p.items == [InputStart] + (NumberGroup + rest)
    requires |s| > 0 && !IsDigit(s[0]) && s[0] != '-'
    ensures Exec(p, s) == None
  {
    ExecAnchored(p, s);
    StartTaken(NumberGroup + rest, p.ignoreCase, s, []);
    NumberGroupFails(rest, p.ignoreCase, s, 0, 0, []);
  }

  // ----- "lat lng" -----

  const SpacePairRest: seq<Item> := [Atom(Space, Plus)] + (NumberGroup + [InputEnd])

  lemma SpacePairItems()
    ensures SpacePair.items == [InputStart] + (NumberGroup + SpacePairRest)
  {
  }

  /** From the white space of "lat lng" on. */
  lemma {:induction false} SpacePairRestTaken(a: string, w: string, b: string)
    requires IsSpacePairText(a, w, b)
    ensures var s := a + w + b;
      MatchAt(SpacePairRest, false, s, |a|, 0, [a]) == Some([a, b])
  {
    var s := a + w + b;
    assert s[|a|..] == w + b;
    SpacesThenLast(Plus, false, s, |a|, 0, a, w, b);
  }

  /** "lat lng" with white space between: SpacePair captures the two numbers. */
  lemma {:induction false} SpacePairMatches(a: string, w: string, b: string)
    requires IsSpacePairText(a, w, b)
    ensures Exec(SpacePair, a + w + b) == Some([a, b])
  {
    var s := a + w + b;
    assert s[..|a|] == a && s[|a|] == w[0];
    SpacePairRestTaken(a, w, b);
    SpacePairItems();
    AnchoredFirstGroup(SpacePair, SpacePairRest, s, a);
  }

  lemma {:induction false} SpacePairText(a: string, w: string, b: string)
    requires IsSpacePairText(a, w, b)
    ensures Trim(a + w + b) == a + w + b
  {
    var s := a + w + b;
    NumberEnds(a);
    NumberEnds(b);
    assert s[0] == a[0] && s[|s| - 1] == b[|b| - 1];
    NumberCharNotSpace(a[0]);
    NumberCharNotSpace(b[|b| - 1]);
    Untrimmed(s);
  }

  /** parseCoordinates reads "lat lng" as the two numbers whenever they are
      in range: the comma form, tried first, needs a comma. */
  lemma {:induction false} SpacePairCoordinates(a: string, w: string, b: string)
    requires IsSpacePairText(a, w, b)
    requires InRange(TokenValue(a).value, TokenValue(b).value)
    ensures ParseCoordinates(a + w + b) == Some(Coord(TokenValue(a).value, TokenValue(b).value))
  {
    var s := a + w + b;
    SpacePairText(a, w, b);
    NoComma(a, w, b);
    assert CommaPair.items[7] == Atom(Lit(','), One);
    ExecNeeds(CommaPair, s, 7);
    SpacePairMatches(a, w, b);
    assert TryPattern(SpacePair, s, false).Some?;
    FirstOfFirst(CoordinatePatterns, s, false, 1);
  }

  // ----- "lat: x, lng: y" -----

  /** x is t written in any mix of upper and lower case. */
  predicate SameIgnoringCase(x: string, t: string)
  {
    |x| == |t| && forall j :: 0 <= j < |x| ==> Fold(x[j]) == Fold(t[j])
  }

  /** A literal text, matched character by character. */
  lemma {:induction false} LitsTaken(t: string, rest: seq<Item>, ic: bool, s: string, pos: nat, open: nat, caps: seq<string>)
    requires open <= pos && pos + |t| <= |s|
    requires forall j :: 0 <= j < |t| ==> ClassHas(Lit(t[j]), ic, s[pos + j])
    requires MatchAt(rest, ic, s, pos + |t|, open, caps).Some?
    ensures MatchAt(Lits(t) + rest, ic, s, pos, open, caps) == MatchAt(rest, ic, s, pos + |t|, open, caps)
    decreases |t|
  {
    if |t| > 0 {
      var u := Lits(t[1..]) + rest;
      assert Lits(t) + rest == [Atom(Lit(t[0]), One)] + u;
      assert ([Atom(Lit(t[0]), One)] + u)[1..] == u;
      assert forall j :: 0 <= j < |t| - 1 ==> t[1..][j] == t[j + 1];
      LitsTaken(t[1..], rest, ic, s, pos + 1, open, caps);
      GreedyStep([Atom(Lit(t[0]), One)] + u, ic, s, pos, open, caps, 1);
    } else {
      assert Lits(t) + rest == rest;
    }
  }

  /** `,?\s*`: an optional comma, then all the white space after it. */
  lemma {:induction false} CommaSpacesOptTaken(tail: seq<Item>, ic: bool, s: string, p3: nat, open: nat, caps: seq<string>, c: string, w: string)
    requires c == "" || c == ","
    requires AllSpace(w) && open <= p3 && p3 + |c| + |w| <= |s| && s[p3..p3 + |c| + |w|] == c + w
    requires var p5 := p3 + |c| + |w|; p5 == |s| || (!IsSpace(s[p5]) && s[p5] != ',')
    requires MatchAt(tail, ic, s, p3 + |c| + |w|, open, caps).Some?
    ensures MatchAt([Atom(Lit(','), Opt), Atom(Space, Star)] + tail, ic, s, p3, open, caps)
         == MatchAt(tail, ic, s, p3 + |c| + |w|, open, caps)
  {
    var p4 := p3 + |c|;
    assert s[p4..p4 + |w|] == w by {
      assert s[p4..p4 + |w|] == s[p3..p3 + |c| + |w|][|c|..];
    }
    SpacesAt(s, p4, w);
    SpacesTaken(Star, tail, ic, s, p4, open, caps, |w|);
    if |c| + |w| > 0 {
      assert s[p3] == (c + w)[0];
    }
    OptCommaTaken([Atom(Space, Star)] + tail, ic, s, p3, open, caps, |c|);
    assert [Atom(Lit(','), Opt), Atom(Space, Star)] + tail == [Atom(Lit(','), Opt)] + ([Atom(Space, Star)] + tail);
  }

  /** `,?` takes the comma when there is one. */
  lemma OptCommaTaken(r1: seq<Item>, ic: bool, s: string, p3: nat, open: nat, caps: seq<string>, n: nat)
    requires n <= 1 && open <= p3 && p3 + n <= |s|
    requires n == 1 ==> s[p3] == ','
    requires n == 0 ==> p3 == |s| || s[p3] != ','
    requires MatchAt(r1, ic, s, p3 + n, open, caps).Some?
    ensures MatchAt([Atom(Lit(','), Opt)] + r1, ic, s, p3, open, caps) == MatchAt(r1, ic, s, p3 + n, open, caps)
  {
    var r0 := [Atom(Lit(','), Opt)] + r1;
    assert r0[1..] == r1;
    GreedyStep(r0, ic, s, p3, open, caps, n);
  }

  /** The pieces of "lat: x, lng: y": the two labels in any case, white space
      after each label, an optional comma and white space between the pair. */
  predicate IsLabelledText(x: string, w1: string, a: string, c: string, w2: string, y: string, w3: string, b: string)
  {
    SameIgnoringCase(x, "lat:") && SameIgnoringCase(y, "lng:")
    && IsNumberText(a) && IsNumberText(b) && (c == "" || c == ",")
    && AllSpace(w1) && AllSpace(w2) && AllSpace(w3)
  }

  function LabelledText(x: string, w1: string, a: string, c: string, w2: string, y: string, w3: string, b: string): string
  {
    (x + w1 + a) + ((c + w2) + (y + w3 + b))
  }

  const LabelledTail: seq<Item> := Lits("lng:") + ([Atom(Space, Star)] + (NumberGroup + [InputEnd]))

  const LabelledRest: seq<Item> := [Atom(Lit(','), Opt), Atom(Space, Star)] + LabelledTail

  lemma LabelledItems()
    ensures LabelledPair.items
         == [InputStart] + (Lits("lat:") + ([Atom(Space, Star)] + (NumberGroup + LabelledRest)))
  {
  }

  /** From the second label on. */
  lemma {:induction false} LabelledTailTaken(s: string, p5: nat, open: nat, a: string, y: string, w3: string, b: string)
    requires SameIgnoringCase(y, "lng:") && AllSpace(w3) && IsNumberText(b)
    requires open <= p5 && p5 + |y| + |w3| + |b| == |s| && s[p5..] == y + w3 + b
    ensures MatchAt(LabelledTail, true, s, p5, open, [a]) == Some([a, b])
  {
    var p6 := p5 + |y|;
    assert forall j :: 0 <= j < |y| ==> s[p5 + j] == y[j];
    assert s[p6..] == w3 + b;
    SpacesThenLast(Star, true, s, p6, open, a, w3, b);
    LitsTaken("lng:", [Atom(Space, Star)] + (NumberGroup + [InputEnd]), true, s, p5, open, [a]);
  }

  /** From the end of the first number on. */
  lemma {:induction false} LabelledRestTaken(s: string, p3: nat, open: nat, a: string, c: string, w2: string, y: string, w3: string, b: string)
    requires SameIgnoringCase(y, "lng:") && AllSpace(w2) && AllSpace(w3) && IsNumberText(b) && (c == "" || c == ",")
    requires open <= p3 <= |s| && s[p3..] == (c + w2) + (y + w3 + b)
    ensures MatchAt(LabelledRest, true, s, p3, open, [a]) == Some([a, b])
  {
    var p5 := p3 + |c| + |w2|;
    assert s[p5..] == y + w3 + b;
    assert s[p3..p5] == c + w2;
    LabelledTailTaken(s, p5, open, a, y, w3, b);
    assert s[p5] == y[0] && Fold(y[0]) == 'L';
    CommaSpacesOptTaken(LabelledTail, true, s, p3, open, [a], c, w2);
  }

  /** `^lat:` in any case at the start of the text. */
  lemma {:induction false} LatLabelTaken(rest: seq<Item>, s: string, x: string)
    requires SameIgnoringCase(x, "lat:") && |x| <= |s| && s[..|x|] == x
    requires MatchAt(rest, true, s, |x|, 0, []).Some?
    ensures MatchAt([InputStart] + (Lits("lat:") + rest), true, s, 0, 0, []) == MatchAt(rest, true, s, |x|, 0, [])
  {
    assert forall j :: 0 <= j < |x| ==> s[j] == x[j];
    LitsTaken("lat:", rest, true, s, 0, 0, []);
    StartTaken(Lits("lat:") + rest, true, s, []);
  }

  /** The first number, captured as the only group so far. */
  lemma {:induction false} FirstGroupTaken(rest: seq<Item>, s: string, p2: nat, a: string)
    requires IsNumberText(a) && p2 + |a| <= |s| && s[p2..p2 + |a|] == a
    requires var p3 := p2 + |a|; p3 == |s| || (!IsDigit(s[p3]) && s[p3] != '.')
    requires MatchAt(rest, true, s, p2 + |a|, p2, [a]).Some?
    ensures MatchAt(NumberGroup + rest, true, s, p2, 0, []) == MatchAt(rest, true, s, p2 + |a|, p2, [a])
  {
    assert [] + [s[p2..p2 + |a|]] == [a];
    NumberGroupTaken(rest, true, s, p2, 0, [], |a|);
  }

  /** White space, then the first number, ahead of any rest. */
  lemma {:induction false} FirstNumberTaken(rest: seq<Item>, s: string, p1: nat, w1: string, a: string)
    requires AllSpace(w1) && IsNumberText(a)
    requires p1 + |w1| + |a| <= |s| && s[p1..p1 + |w1|] == w1 && s[p1 + |w1|..p1 + |w1| + |a|] == a
    requires var p3 := p1 + |w1| + |a|; p3 == |s| || (!IsDigit(s[p3]) && s[p3] != '.')
    requires MatchAt(rest, true, s, p1 + |w1| + |a|, p1 + |w1|, [a]).Some?
    ensures MatchAt([Atom(Space, Star)] + (NumberGroup + rest), true, s, p1, 0, [])
         == MatchAt(rest, true, s, p1 + |w1| + |a|, p1 + |w1|, [a])
  {
    var p2 := p1 + |w1|;
    SpacesAt(s, p1, w1);
    NumberEnds(a);
    assert s[p2..p2 + |a|][0] == s[p2] && s[p2] == a[0];
    NumberCharNotSpace(a[0]);
    FirstGroupTaken(rest, s, p2, a);
    SpacesTaken(Star, NumberGroup + rest, true, s, p1, 0, [], |w1|);
  }

  /** LabelledPair on a text cut into its pieces. */
  lemma {:induction false} LabelledMatchesAt(s: string, x: string, w1: string, a: string, c: string, w2: string, y: string, w3: string, b: string)
    requires IsLabelledText(x, w1, a, c, w2, y, w3, b)
    requires |x| + |w1| + |a| <= |s|
    requires s[..|x|] == x && s[|x|..|x| + |w1|] == w1 && s[|x| + |w1|..|x| + |w1| + |a|] == a
    requires s[|x| + |w1| + |a|..] == (c + w2) + (y + w3 + b)
    ensures Exec(LabelledPair, s) == Some([a, b])
  {
    var p3 := |x| + |w1| + |a|;
    assert s[p3] == ((c + w2) + (y + w3 + b))[0];
    LabelledRestTaken(s, p3, |x| + |w1|, a, c, w2, y, w3, b);
    FirstNumberTaken(LabelledRest, s, |x|, w1, a);
    var r1 := [Atom(Space, Star)] + (NumberGroup + LabelledRest);
    LatLabelTaken(r1, s, x);
    LabelledItems();
    ExecAnchored(LabelledPair, s);
  }

  /** "lat: x, lng: y" in any case: LabelledPair captures the two numbers. */
  lemma LabelledMatches(x: string, w1: string, a: string, c: string, w2: string, y: string, w3: string, b: string)
    requires IsLabelledText(x, w1, a, c, w2, y, w3, b)
    ensures Exec(LabelledPair, LabelledText(x, w1, a, c, w2, y, w3, b)) == Some([a, b])
  {
    var s := LabelledText(x, w1, a, c, w2, y, w3, b);
    var p3 := |x| + |w1| + |a|;
    assert s[..|x|] == x && s[|x|..|x| + |w1|] == w1 && s[|x| + |w1|..p3] == a;
    assert s[p3..] == (c + w2) + (y + w3 + b);
    LabelledMatchesAt(s, x, w1, a, c, w2, y, w3, b);
  }

  /** parseCoordinates reads "lat: x, lng: y", in any case, as the two
      numbers whenever they are in range: the two forms tried before it need
      a number at the start. */
  lemma {:induction false} LabelledCoordinates(x: string, w1: string, a: string, c: string, w2: string, y: string, w3: string, b: string)
    requires IsLabelledText(x, w1, a, c, w2, y, w3, b)
    requires InRange(TokenValue(a).value, TokenValue(b).value)
    ensures ParseCoordinates(LabelledText(x, w1, a, c, w2, y, w3, b))
         == Some(Coord(TokenValue(a).value, TokenValue(b).value))
  {
    var s := LabelledText(x, w1, a, c, w2, y, w3, b);
    NumberEnds(b);
    assert s[0] == x[0] && Fold(x[0]) == 'L';
    assert s[|s| - 1] == b[|b| - 1];
    NumberCharNotSpace(b[|b| - 1]);
    Untrimmed(s);
    CommaPairItems();
    AnchoredNumberFails(CommaPair, CommaPairRest, s);
    SpacePairItems();
    AnchoredNumberFails(SpacePair, SpacePairRest, s);
    LabelledMatches(x, w1, a, c, w2, y, w3, b);
    NumberEnds(a);
    assert TryPattern(LabelledPair, s, false).Some?;
    FirstOfFirst(CoordinatePatterns, s, false, 2);
  }

  // ----- A bare run of digits -----

  /** Atoms that may match zero times and find no character of their class
      at pos all step over. */
  lemma {:induction false} SkipAtoms(items: seq<Item>, k: nat, ic: bool, s: string, pos: nat, open: nat, caps: seq<string>)
    requires open <= pos <= |s| && k <= |items|
    requires forall i :: 0 <= i < k ==> items[i].Atom? && MinCount(items[i].q) == 0
    requires forall i :: 0 <= i < k ==> pos == |s| || !ClassHas(items[i].cls, ic, s[pos])
    ensures MatchAt(items, ic, s, pos, open, caps) == MatchAt(items[k..], ic, s, pos, open, caps)
  {
    if k > 0 {
      SkipAtom(items, ic, s, pos, open, caps);
      assert forall i :: 0 <= i < k - 1 ==> items[1..][i] == items[i + 1];
      SkipAtoms(items[1..], k - 1, ic, s, pos, open, caps);
      assert items[1..][k - 1..] == items[k..];
    }
  }

  /** `°?\s*[NS]?,?\s*`: what DegreesPair allows between the two numbers. */
  const DegreesMid: seq<Item> :=
    [Atom(Lit('°'), Opt), Atom(Space, Star), Atom(OneOf("NS"), Opt), Atom(Lit(','), Opt), Atom(Space, Star)]

  /** `°?\s*[EW]?$`: what DegreesPair allows after the second number. */
  const DegreesEnd: seq<Item> := [Atom(Lit('°'), Opt), Atom(Space, Star), Atom(OneOf("EW"), Opt), InputEnd]

  const DegreesRest: seq<Item> := DegreesMid + (NumberGroup + DegreesEnd)

  lemma DegreesItems()
    ensures DegreesPair.items == [InputStart] + (NumberGroup + DegreesRest)
  {
  }

  /** A run of digits is a number token. */
  lemma DigitsAreNumber(t: string)
    requires |t| > 0 && AllDigits(t)
    ensures IsNumberText(t) && TokenValue(t) == Some(DigitsValue(t) as real)
  {
    DigitRunAll(t, 0);
  }

  /** Nothing of DegreesEnd needs a character: it matches at the end. */
  lemma DegreesEndAt(s: string, open: nat, caps: seq<string>)
    requires open <= |s|
    ensures MatchAt(DegreesEnd, true, s, |s|, open, caps) == Some(caps)
  {
    SkipAtoms(DegreesEnd, 3, true, s, |s|, open, caps);
    assert DegreesEnd[3..] == [InputEnd];
    EndTaken(true, s, open, caps);
  }

  /** No atom of DegreesMid matches a digit. */
  lemma DigitOutsideMid(c: char)
    requires IsDigit(c)
    ensures forall i :: 0 <= i < |DegreesMid| ==> !ClassHas(DegreesMid[i].cls, true, c)
  {
    assert forall p :: p in "NS" ==> Fold(p) == 'N' || Fold(p) == 'S';
  }

  /** In front of a digit every atom of DegreesMid matches zero times. */
  lemma {:induction false} DegreesMidSkipped(rest: seq<Item>, s: string, pos: nat, open: nat, caps: seq<string>)
    requires open <= pos < |s| && IsDigit(s[pos])
    ensures MatchAt(DegreesMid + rest, true, s, pos, open, caps) == MatchAt(rest, true, s, pos, open, caps)
  {
    var m := DegreesMid + rest;
    assert forall i :: 0 <= i < 5 ==> m[i] == DegreesMid[i];
    DigitOutsideMid(s[pos]);
    SkipAtoms(m, 5, true, s, pos, open, caps);
    assert m[5..] == rest;
  }

  /** With the last digit left over, the rest of DegreesPair reads it as the
      second number. */
  lemma {:induction false} DegreesRestOnLastDigit(s: string, caps: seq<string>)
    requires |s| > 0 && IsDigit(s[|s| - 1])
    ensures MatchAt(DegreesRest, true, s, |s| - 1, 0, caps) == Some(caps + [s[|s| - 1..]])
  {
    var n := |s|;
    assert s[n - 1..n] == s[n - 1..] == [s[n - 1]];
    DigitsAreNumber(s[n - 1..n]);
    DegreesEndAt(s, n - 1, caps + [s[n - 1..n]]);
    NumberGroupTaken(DegreesEnd, true, s, n - 1, 0, caps, 1);
    DegreesMidSkipped(NumberGroup + DegreesEnd, s, n - 1, 0, caps);
  }

  /** With no character left, the rest of DegreesPair fails: it needs a digit. */
  lemma DegreesRestAtEnd(s: string, open: nat, caps: seq<string>)
    requires open <= |s|
    ensures MatchAt(DegreesRest, true, s, |s|, open, caps) == None
  {
    assert DegreesRest[7] == Atom(Digit, Plus);
    MatchAtNeeds(DegreesRest, true, s, |s|, open, caps, 7);
  }

  /** A greedy atom whose longest run leaves the rest no match gives one
      character back. */
  lemma GiveBackOne(items: seq<Item>, ic: bool, s: string, pos: nat, open: nat, caps: seq<string>, r: nat)
    requires open <= pos && pos + r <= |s| && |items| > 0 && items[0].Atom?
    requires MinCount(items[0].q) < r <= MaxCount(items[0].q, s, pos)
    requires forall j :: pos <= j < pos + r ==> ClassHas(items[0].cls, ic, s[j])
    requires r == MaxCount(items[0].q, s, pos) || pos + r == |s| || !ClassHas(items[0].cls, ic, s[pos + r])
    requires MatchAt(items[1..], ic, s, pos + r, open, caps) == None
    requires MatchAt(items[1..], ic, s, pos + r - 1, open, caps).Some?
    ensures MatchAt(items, ic, s, pos, open, caps) == MatchAt(items[1..], ic, s, pos + r - 1, open, caps)
  {
    var lo := MinCount(items[0].q);
    RunIs(items[0].cls, ic, s, pos, MaxCount(items[0].q, s, pos), r);
    assert MatchAt(items, ic, s, pos, open, caps) == TryCounts(items[1..], ic, s, pos, open, caps, lo, r);
    assert TryCounts(items[1..], ic, s, pos, open, caps, lo, r) == TryCounts(items[1..], ic, s, pos, open, caps, lo, r - 1);
  }

  /** What follows the first number's `\d+`: `\.?\d*)` and the rest. */
  const DegreesFirstTail: seq<Item> := [Atom(Lit('.'), Opt), Atom(Digit, Star), Close] + DegreesRest

  /** A closing parenthesis records the group's text. */
  lemma CloseStep(rest: seq<Item>, ic: bool, s: string, pos: nat, open: nat, caps: seq<string>)
    requires open <= pos <= |s|
    ensures MatchAt([Close] + rest, ic, s, pos, open, caps) == MatchAt(rest, ic, s, pos, open, caps + [s[open..pos]])
  {
    assert ([Close] + rest)[1..] == rest;
  }

  /** The second number's `\d+` finds no digit at the end of the text. */
  lemma DegreesFirstTailAtEnd(s: string)
    ensures MatchAt(DegreesFirstTail, true, s, |s|, 0, []) == None
  {
    assert DegreesFirstTail[10] == Atom(Digit, Plus);
    MatchAtNeeds(DegreesFirstTail, true, s, |s|, 0, [], 10);
  }

  /** The first group closes before the last digit, and cannot close at the
      end of the text. */
  lemma {:induction false} DegreesGroupCloses(s: string)
    requires |s| >= 2 && AllDigits(s)
    ensures MatchAt([Close] + DegreesRest, true, s, |s|, 0, []) == None
    ensures MatchAt([Close] + DegreesRest, true, s, |s| - 1, 0, []) == Some([s[..|s| - 1], s[|s| - 1..]])
  {
    var n := |s|;
    CloseStep(DegreesRest, true, s, n, 0, []);
    DegreesRestAtEnd(s, 0, [] + [s[0..n]]);
    CloseStep(DegreesRest, true, s, n - 1, 0, []);
    DegreesRestOnLastDigit(s, [] + [s[0..n - 1]]);
    assert ([] + [s[0..n - 1]]) + [s[n - 1..]] == [s[..n - 1], s[n - 1..]];
  }

  /** After the first number's digits: the match needs the last digit left
      over, and then reads the digits before it as the first number. */
  lemma {:induction false} DegreesFirstTailTaken(s: string)
    requires |s| >= 2 && AllDigits(s)
    ensures MatchAt(DegreesFirstTail, true, s, |s| - 1, 0, []) == Some([s[..|s| - 1], s[|s| - 1..]])
  {
    assert DegreesFirstTail == [Atom(Lit('.'), Opt), Atom(Digit, Star)] + ([Close] + DegreesRest);
    DegreesGroupCloses(s);
    LastDigitGivenBack([Close] + DegreesRest, true, s, 0, []);
  }

  /** Before the last digit of the text, `\.?\d*` takes that digit unless the
      rest then fails, and then takes nothing. */
  lemma {:induction false} LastDigitGivenBack(rest: seq<Item>, ic: bool, s: string, open: nat, caps: seq<string>)
    requires open < |s| && IsDigit(s[|s| - 1])
    requires MatchAt(rest, ic, s, |s|, open, caps) == None
    requires MatchAt(rest, ic, s, |s| - 1, open, caps).Some?
    ensures MatchAt([Atom(Lit('.'), Opt), Atom(Digit, Star)] + rest, ic, s, |s| - 1, open, caps)
         == MatchAt(rest, ic, s, |s| - 1, open, caps)
  {
    var n := |s|;
    var t1 := [Atom(Digit, Star)] + rest;
    var items := [Atom(Lit('.'), Opt)] + t1;
    assert [Atom(Lit('.'), Opt), Atom(Digit, Star)] + rest == items;
    assert items[1..] == t1 && t1[1..] == rest;
    GiveBackOne(t1, ic, s, n - 1, open, caps, 1);
    SkipAtom(items, ic, s, n - 1, open, caps);
  }

  /** The first number's `\d+` gives back the last digit. */
  lemma {:induction false} DegreesDigitsTaken(s: string)
    requires |s| >= 2 && AllDigits(s)
    ensures MatchAt([Atom(Digit, Plus)] + DegreesFirstTail, true, s, 0, 0, []) == Some([s[..|s| - 1], s[|s| - 1..]])
  {
    var d := [Atom(Digit, Plus)] + DegreesFirstTail;
    assert d[1..] == DegreesFirstTail;
    DegreesFirstTailAtEnd(s);
    DegreesFirstTailTaken(s);
    GiveBackOne(d, true, s, 0, 0, [], |s|);
  }

  /** A pattern anchored at the start and opening with a number group is
      matched from the number's first atom. */
  lemma AnchoredNumberFirst(p: Pattern, rest: seq<Item>, s: string)
    requires p.items == [InputStart] + (NumberGroup + rest)
    ensures Exec(p, s) == MatchAt(Number + ([Close] + rest), p.ignoreCase, s, 0, 0, [])
  {
    ExecAnchored(p, s);
    StartTaken(NumberGroup + rest, p.ignoreCase, s, []);
    assert NumberGroup + rest == [Open] + (Number + ([Close] + rest));
    assert ([Open] + (Number + ([Close] + rest)))[1..] == Number + ([Close] + rest);
  }

  /** The greedy `\d+` of the first number takes every digit, leaves the
      second number nothing, and gives back one digit. */
  lemma {:induction false} DegreesSplitsDigits(s: string)
    requires |s| >= 2 && AllDigits(s)
    ensures Exec(DegreesPair, s) == Some([s[..|s| - 1], s[|s| - 1..]])
  {
    var d := [Atom(Digit, Plus)] + DegreesFirstTail;
    var g := [Atom(Lit('-'), Opt)] + d;
    DegreesItems();
    AnchoredNumberFirst(DegreesPair, DegreesRest, s);
    assert Number + ([Close] + DegreesRest) == g;
    assert g[1..] == d;
    SkipAtom(g, true, s, 0, 0, []);
    DegreesDigitsTaken(s);
  }

  /** parseCoordinates on a bare run of two or more digits: the comma, space
      and labelled forms all fail, and the degrees form reads every digit
      but the last as the latitude and the last digit as the longitude. */
  lemma {:induction false} DigitRunCoordinates(s: string)
    requires |s| >= 2 && AllDigits(s)
    ensures ParseCoordinates(s) == Validate(Some(s[..|s| - 1]), Some(s[|s| - 1..]))
  {
    NumberCharNotSpace(s[0]);
    NumberCharNotSpace(s[|s| - 1]);
    Untrimmed(s);
    assert CommaPair.items[7] == Atom(Lit(','), One);
    ExecNeeds(CommaPair, s, 7);
    assert SpacePair.items[7] == Atom(Space, Plus);
    ExecNeeds(SpacePair, s, 7);
    assert LabelledPair.items[1] == Atom(Lit('l'), One);
    ExecNeeds(LabelledPair, s, 1);
    DegreesSplitsDigits(s);
    var v := Validate(Some(s[..|s| - 1]), Some(s[|s| - 1..]));
    assert TryPattern(DegreesPair, s, false) == v;
    if v.Some? {
      FirstOfFirst(CoordinatePatterns, s, false, 3);
    } else {
      FirstOfNone(CoordinatePatterns, s, false);
    }
  }

  /** The value of a one-digit text is that digit's value. */
  lemma OneDigitValue(t: string)
    requires |t| == 1 && IsDigit(t[0])
    ensures IsNumberText(t) && TokenValue(t) == Some(DigitValue(t[0]) as real)
  {
    DigitsAreNumber(t);
    assert t[..0] == "";
  }

  /** So a run of two or more digits, such as "453", is read as the number
      its digits but the last write (45) and the last digit (3), when these
      are in range, and is refused otherwise. */
  lemma DigitRunValues(s: string)
    requires |s| >= 2 && AllDigits(s)
    ensures var lat := DigitsValue(s[..|s| - 1]) as real;
      var lng := DigitValue(s[|s| - 1]) as real;
      ParseCoordinates(s) == if InRange(lat, lng) then Some(Coord(lat, lng)) else None
  {
    var n := |s|;
    DigitRunCoordinates(s);
    DigitsAreNumber(s[..n - 1]);
    assert s[n - 1..][0] == s[n - 1];
    OneDigitValue(s[n - 1..]);
  }

  // ----- A trailing point -----

  /** A point with no digit after it leaves the value of the digits as it is. */
  lemma TrailingPointValue(d: string)
    requires |d| > 0 && AllDigits(d)
    ensures IsNumberText(d + ".") && TokenValue(d + ".") == Some(DigitsValue(d) as real)
  {
    var u := d + ".";
    assert u[0..|d|] == d && u[..|d|] == d && u[|d| + 1..] == "";
    DigitRunLength(u, |d|);
    assert u[0] == d[0] && IsDigit(d[0]);
    assert TokenValue(u) == UnsignedValue(u);
    assert u[|d|] == '.' && FractionValue(u[|d| + 1..]) == 0.0;
    assert UnsignedValue(u) == Some(DigitsValue(u[..|d|]) as real + FractionValue(u[|d| + 1..]));
  }

  /** The number token allows a point with no digit after it: "45.,31" is
      read as latitude 45, longitude 31, by both parsers. */
  lemma TrailingPointCoordinates(d: string, w: string, b: string)
    requires |d| > 0 && AllDigits(d) && AllSpace(w) && IsNumberText(b)
    requires InRange(DigitsValue(d) as real, TokenValue(b).value)
    ensures ParseCoordinates(d + "." + "," + w + b) == Some(Coord(DigitsValue(d) as real, TokenValue(b).value))
    ensures ParseLocationLink(d + "." + "," + w + b) == Some(Coord(DigitsValue(d) as real, TokenValue(b).value))
  {
    TrailingPointValue(d);
    CommaPairCoordinates(d + ".", w, b);
    CommaPairLink(d + ".", w, b);
  }

  // ----- The fallback needs two digits per number -----

  /** At j starts what `\d+\.?\d+` needs: a digit followed by a digit, or
      by a point and a digit. */
  predicate LongNumberAt(s: string, j: nat)
  {
    j + 1 < |s| && IsDigit(s[j])
    && (IsDigit(s[j + 1]) || (s[j + 1] == '.' && j + 2 < |s| && IsDigit(s[j + 2])))
  }

  predicate NoLongNumber(s: string)
  {
    forall j: nat :: j < |s| ==> !LongNumberAt(s, j)
  }

  /** `\d+` fails where no digit is. */
  lemma DigitPlusFails(rest: seq<Item>, s: string, p: nat, open: nat, caps: seq<string>)
    requires open <= p <= |s| && (p == |s| || !IsDigit(s[p]))
    ensures MatchAt([Atom(Digit, Plus)] + rest, false, s, p, open, caps) == None
  {
    RunIs(Digit, false, s, p, |s| - p, 0);
  }

  /** After a lone digit, `\.?\d+` finds no digit to take. */
  lemma {:induction false} AfterLoneDigit(rest: seq<Item>, s: string, q: nat, open: nat, caps: seq<string>)
    requires 0 < q && open <= q <= |s| && IsDigit(s[q - 1]) && !LongNumberAt(s, q - 1)
    ensures MatchAt([Atom(Lit('.'), Opt), Atom(Digit, Plus)] + rest, false, s, q, open, caps) == None
  {
    var t := [Atom(Digit, Plus)] + rest;
    var items := [Atom(Lit('.'), Opt)] + t;
    assert [Atom(Lit('.'), Opt), Atom(Digit, Plus)] + rest == items;
    assert items[1..] == t;
    DigitPlusFails(rest, s, q, open, caps);
    if q < |s| && s[q] == '.' {
      DigitPlusFails(rest, s, q + 1, open, caps);
      RunIs(Lit('.'), false, s, q, 1, 1);
      assert MatchAt(items, false, s, q, open, caps) == TryCounts(t, false, s, q, open, caps, 0, 1);
      assert TryCounts(t, false, s, q, open, caps, 0, 1) == TryCounts(t, false, s, q, open, caps, 0, 0);
    } else {
      RunIs(Lit('.'), false, s, q, 1, 0);
    }
  }

  /** `\d+\.?\d+` fails wherever no long number starts. */
  lemma {:induction false} DigitsFail(rest: seq<Item>, s: string, q: nat, open: nat, caps: seq<string>)
    requires open <= q <= |s| && NoLongNumber(s)
    ensures MatchAt([Atom(Digit, Plus), Atom(Lit('.'), Opt), Atom(Digit, Plus)] + rest, false, s, q, open, caps) == None
  {
    var tail := [Atom(Lit('.'), Opt), Atom(Digit, Plus)] + rest;
    var items := [Atom(Digit, Plus)] + tail;
    assert [Atom(Digit, Plus), Atom(Lit('.'), Opt), Atom(Digit, Plus)] + rest == items;
    if q < |s| && IsDigit(s[q]) {
      assert !LongNumberAt(s, q);
      AfterLoneDigit(rest, s, q + 1, open, caps);
      assert items[1..] == tail;
      RunIs(Digit, false, s, q, |s| - q, 1);
    } else {
      DigitPlusFails(tail, s, q, open, caps);
    }
  }

  /** LongNumber, ahead of any rest, fails wherever no long number starts. */
  lemma {:induction false} LongNumberFails(rest: seq<Item>, s: string, pos: nat, open: nat, caps: seq<string>)
    requires open <= pos <= |s| && NoLongNumber(s)
    ensures MatchAt(LongNumber + rest, false, s, pos, open, caps) == None
  {
    var d := [Atom(Digit, Plus), Atom(Lit('.'), Opt), Atom(Digit, Plus)] + rest;
    var items := [Atom(Lit('-'), Opt)] + d;
    assert LongNumber + rest == items && items[1..] == d;
    DigitsFail(rest, s, pos, open, caps);
    if pos < |s| && s[pos] == '-' {
      DigitsFail(rest, s, pos + 1, open, caps);
      RunIs(Lit('-'), false, s, pos, 1, 1);
      assert MatchAt(items, false, s, pos, open, caps) == TryCounts(d, false, s, pos, open, caps, 0, 1);
      assert TryCounts(d, false, s, pos, open, caps, 0, 1) == TryCounts(d, false, s, pos, open, caps, 0, 0);
    } else {
      RunIs(Lit('-'), false, s, pos, 1, 0);
    }
  }

  lemma {:induction false} FallbackSearchFails(s: string, i: nat)
    requires i <= |s| && NoLongNumber(s)
    ensures SearchFrom(Fallback, s, i) == None
    decreases |s| - i
  {
    var rest := [Close] + Lits(",") + [Atom(Space, Star), Open] + LongNumber + [Close];
    assert Fallback.items == [Open] + (LongNumber + rest);
    assert ([Open] + (LongNumber + rest))[1..] == LongNumber + rest;
    LongNumberFails(rest, s, i, i, []);
    if i < |s| {
      FallbackSearchFails(s, i + 1);
    }
  }

  /** The fallback `-?\d+\.?\d+,\s*-?\d+\.?\d+` finds nothing in a text
      where no digit is followed by a digit, or by a point and a digit. */
  lemma FallbackNeedsTwoDigits(s: string)
    requires NoLongNumber(s)
    ensures Exec(Fallback, s) == None
  {
    FallbackSearchFails(s, 0);
  }

  /** So parseLocationLink returns null for such a text whenever none of
      its listed patterns validates. */
  lemma ShortNumbersUnread(link: string)
    requires forall j :: 0 <= j < |LinkPatterns| ==> TryPattern(LinkPatterns[j], Trim(link), true).None?
    requires NoLongNumber(Trim(link))
    ensures ParseLocationLink(link) == None
  {
    ParseLocationLinkFallback(link);
    FallbackNeedsTwoDigits(Trim(link));
  }
}
