/** What parseCoordinates of src/components/LocationInput.tsx makes of the
    degrees form it lists last, "30° N, 31° E": each number may be followed
    by a degree sign, white space and a hemisphere letter, with an optional
    comma between the two. */
module DegreeForms {
  import opened Types
  import opened Numbers
  import opened Patterns
  import opened LocationInput
  import opened CoordinateForms

  // ----- The characters -----

  /** Under the `i` flag the degree sign matches only itself. */
  lemma DegreeClass(c: char)
    ensures ClassHas(Lit('°'), true, c) <==> c == '°'
  {
  }

  /** Under the `i` flag `[NS]` and `[EW]` match their letters in either case. */
  lemma HemisphereClass(cs: string, c: char)
    requires cs == "NS" || cs == "EW"
    ensures ClassHas(OneOf(cs), true, c) <==> Fold(c) == cs[0] || Fold(c) == cs[1]
  {
    assert cs[0] in cs && cs[1] in cs;
    assert forall p :: p in cs ==> p == cs[0] || p == cs[1];
  }

  /** A letter is neither white space nor a degree sign, a comma or a digit. */
  lemma LetterCharacter(c: char)
    requires 'A' <= Fold(c) <= 'Z'
    ensures !IsSpace(c) && c != '°' && c != ',' && !IsDigit(c) && c != '-'
  {
  }

  /** A degree sign is not white space. */
  lemma DegreeNotSpace()
    ensures !IsSpace('°')
  {
  }

  /** One optional hemisphere letter from `letters`, in either case. */
  predicate IsHemisphere(h: string, letters: string)
    requires letters == "NS" || letters == "EW"
  {
    h == "" || (|h| == 1 && (Fold(h[0]) == letters[0] || Fold(h[0]) == letters[1]))
  }

  /** Between the numbers: an optional degree sign d, white space w1, an
      optional N or S, an optional comma c and white space w2; white space
      that no letter or comma splits is all counted in w1. */
  predicate MidPieces(d: string, w1: string, h: string, c: string, w2: string)
  {
    (d == "" || d == "°") && AllSpace(w1) && IsHemisphere(h, "NS") && (c == "" || c == ",") && AllSpace(w2)
    && (h == "" && c == "" ==> w2 == "")
  }

  /** After the second number: an optional degree sign d, white space w and
      an optional E or W; the text does not end in white space. */
  predicate EndPieces(d: string, w: string, h: string)
  {
    (d == "" || d == "°") && AllSpace(w) && IsHemisphere(h, "EW") && (h == "" ==> w == "")
  }

  /** The pieces of the degrees form: the first number, MidPieces, the
      second number and EndPieces, where the first number ends where the
      second does not continue it (something stands between them, or the
      second starts with a minus). */
  predicate IsDegreesText(a: string, d1: string, w1: string, h1: string, c: string, w2: string,
                          b: string, d2: string, w3: string, h2: string)
  {
    IsNumberText(a) && IsNumberText(b)
    && MidPieces(d1, w1, h1, c, w2) && EndPieces(d2, w3, h2)
    && (d1 + w1 + h1 + c + w2 != "" || b[0] == '-')
  }

  /** At least one degree sign or hemisphere letter is present. */
  predicate HasMarker(d1: string, h1: string, d2: string, h2: string)
  {
    d1 != "" || h1 != "" || d2 != "" || h2 != ""
  }

  function DegreesText(a: string, d1: string, w1: string, h1: string, c: string, w2: string,
                       b: string, d2: string, w3: string, h2: string): string
  {
    a + (d1 + w1 + h1 + c + w2) + (b + (d2 + w3 + h2))
  }

  /** A piece of s read at p. */
  lemma PieceAt(s: string, p: nat, m: string, i: nat, j: nat)
    requires p + |m| <= |s| && s[p..p + |m|] == m && i <= j <= |m|
    ensures s[p + i..p + j] == m[i..j]
    ensures i < j ==> s[p + i] == m[i]
  {
    assert forall k :: i <= k < j ==> s[p + k] == m[k];
  }

  /** A number character is neither a letter, a degree sign, a comma nor
      white space. */
  lemma NumberCharacter(c: char)
    requires IsDigit(c) || c == '-' || c == '.'
    ensures !IsSpace(c) && c != '°' && c != ',' && !('A' <= Fold(c) <= 'Z')
  {
  }

  /** White space is neither a letter nor a degree sign. */
  lemma SpaceCharacter(c: char)
    requires IsSpace(c)
    ensures c != '°' && !('A' <= Fold(c) <= 'Z')
  {
  }

  // ----- `°?\s*[NS]?` and `°?\s*[EW]?` -----

  /** An optional degree sign, white space and an optional letter of cs. */
  function SignSpacesLetter(cs: string): seq<Item>
  {
    [Atom(Lit('°'), Opt), Atom(Space, Star), Atom(OneOf(cs), Opt)]
  }

  /** `[NS]?` or `[EW]?` takes its letter when there is one. */
  lemma {:induction false} LetterTaken(cs: string, rest: seq<Item>, s: string, q: nat, open: nat, caps: seq<string>, nh: nat)
    requires cs == "NS" || cs == "EW"
    requires open <= q && nh <= 1 && q + nh <= |s|
    requires nh == 1 ==> Fold(s[q]) == cs[0] || Fold(s[q]) == cs[1]
    requires nh == 0 && q < |s| ==> Fold(s[q]) != cs[0] && Fold(s[q]) != cs[1]
    requires MatchAt(rest, true, s, q + nh, open, caps).Some?
    ensures MatchAt([Atom(OneOf(cs), Opt)] + rest, true, s, q, open, caps) == MatchAt(rest, true, s, q + nh, open, caps)
  {
    if q < |s| {
      HemisphereClass(cs, s[q]);
    }
    OptTaken(OneOf(cs), rest, true, s, q, open, caps, nh);
  }

  /** `\s*` and then the letter. */
  lemma {:induction false} SpacesLetterTaken(cs: string, rest: seq<Item>, s: string, p: nat, open: nat, caps: seq<string>, nw: nat, nh: nat)
    requires cs == "NS" || cs == "EW"
    requires open <= p && nh <= 1 && p + nw + nh <= |s|
    requires forall j :: p <= j < p + nw ==> IsSpace(s[j])
    requires p + nw < |s| ==> !IsSpace(s[p + nw])
    requires nh == 1 ==> Fold(s[p + nw]) == cs[0] || Fold(s[p + nw]) == cs[1]
    requires nh == 0 && p + nw < |s| ==> Fold(s[p + nw]) != cs[0] && Fold(s[p + nw]) != cs[1]
    requires MatchAt(rest, true, s, p + nw + nh, open, caps).Some?
    ensures MatchAt([Atom(Space, Star), Atom(OneOf(cs), Opt)] + rest, true, s, p, open, caps)
         == MatchAt(rest, true, s, p + nw + nh, open, caps)
  {
    var r2 := [Atom(OneOf(cs), Opt)] + rest;
    LetterTaken(cs, rest, s, p + nw, open, caps, nh);
    SpacesTaken(Star, r2, true, s, p, open, caps, nw);
    assert [Atom(Space, Star), Atom(OneOf(cs), Opt)] + rest == [Atom(Space, Star)] + r2;
  }

  /** The sign, nd characters; the white space, nw; the letter, nh. Each
      greedy atom takes its part, and what follows each part is something
      that atom does not match. */
  lemma {:induction false} SignSpacesLetterTaken(cs: string, rest: seq<Item>, s: string, p: nat, open: nat, caps: seq<string>,
                                                nd: nat, nw: nat, nh: nat)
    requires cs == "NS" || cs == "EW"
    requires open <= p && nd <= 1 && nh <= 1 && p + nd + nw + nh <= |s|
    requires nd == 1 ==> s[p] == '°'
    requires nd == 0 && p < |s| ==> s[p] != '°'
    requires forall j :: p + nd <= j < p + nd + nw ==> IsSpace(s[j])
    requires p + nd + nw < |s| ==> !IsSpace(s[p + nd + nw])
    requires nh == 1 ==> Fold(s[p + nd + nw]) == cs[0] || Fold(s[p + nd + nw]) == cs[1]
    requires nh == 0 && p + nd + nw < |s| ==> Fold(s[p + nd + nw]) != cs[0] && Fold(s[p + nd + nw]) != cs[1]
    requires MatchAt(rest, true, s, p + nd + nw + nh, open, caps).Some?
    ensures MatchAt(SignSpacesLetter(cs) + rest, true, s, p, open, caps)
         == MatchAt(rest, true, s, p + nd + nw + nh, open, caps)
  {
    var r1 := [Atom(Space, Star), Atom(OneOf(cs), Opt)] + rest;
    SpacesLetterTaken(cs, rest, s, p + nd, open, caps, nw, nh);
    if p < |s| {
      DegreeClass(s[p]);
    }
    OptTaken(Lit('°'), r1, true, s, p, open, caps, nd);
    assert SignSpacesLetter(cs) + rest == [Atom(Lit('°'), Opt)] + r1;
  }

  lemma DegreesEndItems()
    ensures DegreesEnd == SignSpacesLetter("EW") + [InputEnd]
  {
  }

  lemma DegreesMidItems()
    ensures DegreesMid == SignSpacesLetter("NS") + [Atom(Lit(','), Opt), Atom(Space, Star)]
  {
  }

  // ----- After the second number: `°?\s*[EW]?$` -----

  /** DegreesEnd at p: nd characters of sign, nw of white space, nh of
      letter, and then the end of the text. */
  lemma {:induction false} DegreesEndAt(s: string, p: nat, open: nat, caps: seq<string>, nd: nat, nw: nat, nh: nat)
    requires open <= p && nd <= 1 && nh <= 1 && p + nd + nw + nh == |s|
    requires nd == 1 ==> s[p] == '°'
    requires nd == 0 && p < |s| ==> s[p] != '°'
    requires forall j :: p + nd <= j < p + nd + nw ==> IsSpace(s[j])
    requires p + nd + nw < |s| ==> !IsSpace(s[p + nd + nw])
    requires nh == 1 ==> Fold(s[p + nd + nw]) == 'E' || Fold(s[p + nd + nw]) == 'W'
    ensures MatchAt(DegreesEnd, true, s, p, open, caps) == Some(caps)
  {
    EndTaken(true, s, open, caps);
    SignSpacesLetterTaken("EW", [InputEnd], s, p, open, caps, nd, nw, nh);
    DegreesEndItems();
  }

  /** Where the pieces after the second number put each character. */
  lemma {:induction false} EndFacts(s: string, p: nat, d: string, w: string, h: string)
    requires EndPieces(d, w, h)
    requires p + |d| + |w| + |h| == |s| && s[p..] == d + w + h
    ensures |d| == 1 ==> s[p] == '°'
    ensures |d| == 0 && p < |s| ==> s[p] != '°'
    ensures forall j :: p + |d| <= j < p + |d| + |w| ==> IsSpace(s[j])
    ensures p + |d| + |w| < |s| ==> !IsSpace(s[p + |d| + |w|])
    ensures |h| == 1 ==> Fold(s[p + |d| + |w|]) == 'E' || Fold(s[p + |d| + |w|]) == 'W'
    ensures p < |s| ==> !IsDigit(s[p]) && s[p] != '.'
  {
    var e := d + w + h;
    if p < |s| {
      assert s[p] == e[0];
      EndStart(s, p, d, w, h);
    }
    var q := p + |d| + |w|;
    assert s[p..p + |e|] == e;
    PieceAt(s, p, e, |d|, |d| + |w|);
    SpacesAt(s, p + |d|, w);
    if |h| == 1 {
      PieceAt(s, p, e, |d| + |w|, |e|);
      assert s[q] == h[0];
      LetterCharacter(s[q]);
    }
    if |d| == 1 {
      PieceAt(s, p, e, 0, 1);
    } else if p < |s| {
      PieceAt(s, p, e, 0, |e|);
      if |w| > 0 {
        SpaceCharacter(s[p]);
      } else {
        LetterCharacter(s[p]);
      }
    }
  }

  /** The first character after a number: a sign, a space or a letter,
      so never part of the number. */
  lemma {:induction false} EndStart(s: string, p: nat, d: string, w: string, h: string)
    requires EndPieces(d, w, h)
    requires p < |s| && |d + w + h| > 0 && s[p] == (d + w + h)[0]
    ensures !IsDigit(s[p]) && s[p] != '.'
  {
    if |d| == 1 {
    } else if |w| > 0 {
      assert s[p] == w[0];
      SpaceCharacter(s[p]);
    } else {
      assert s[p] == h[0];
      LetterCharacter(s[p]);
    }
  }

  /** The number b at pb, and then rest from pb + |b|. */
  lemma {:induction false} NumberThen(rest: seq<Item>, s: string, pb: nat, a: string, b: string)
    requires pb + |b| <= |s| && s[pb..pb + |b|] == b && IsNumberText(b)
    requires pb + |b| == |s| || (!IsDigit(s[pb + |b|]) && s[pb + |b|] != '.')
    requires MatchAt(rest, true, s, pb + |b|, pb, [a, b]) == Some([a, b])
    ensures MatchAt(NumberGroup + rest, true, s, pb, 0, [a]) == Some([a, b])
  {
    assert [a] + [s[pb..pb + |b|]] == [a, b];
    NumberGroupTaken(rest, true, s, pb, 0, [a], |b|);
  }

  /** The second number b at pb, then DegreesEnd by positions. */
  lemma {:induction false} SecondAt(s: string, pb: nat, a: string, b: string, nd: nat, nw: nat, nh: nat)
    requires nd <= 1 && nh <= 1 && pb + |b| + nd + nw + nh == |s|
    requires s[pb..pb + |b|] == b && IsNumberText(b)
    requires pb + |b| < |s| ==> !IsDigit(s[pb + |b|]) && s[pb + |b|] != '.'
    requires nd == 1 ==> s[pb + |b|] == '°'
    requires nd == 0 && pb + |b| < |s| ==> s[pb + |b|] != '°'
    requires forall j :: pb + |b| + nd <= j < pb + |b| + nd + nw ==> IsSpace(s[j])
    requires pb + |b| + nd + nw < |s| ==> !IsSpace(s[pb + |b| + nd + nw])
    requires nh == 1 ==> Fold(s[pb + |b| + nd + nw]) == 'E' || Fold(s[pb + |b| + nd + nw]) == 'W'
    ensures MatchAt(NumberGroup + DegreesEnd, true, s, pb, 0, [a]) == Some([a, b])
  {
    DegreesEndAt(s, pb + |b|, pb, [a, b], nd, nw, nh);
    NumberThen(DegreesEnd, s, pb, a, b);
  }

  /** The second number, then what follows it. */
  lemma {:induction false} SecondDegreesTaken(s: string, pb: nat, a: string, b: string, d: string, w: string, h: string)
    requires EndPieces(d, w, h) && IsNumberText(b)
    requires pb + |b| + |d| + |w| + |h| == |s| && s[pb..pb + |b|] == b && s[pb + |b|..] == d + w + h
    ensures MatchAt(NumberGroup + DegreesEnd, true, s, pb, 0, [a]) == Some([a, b])
  {
    EndFacts(s, pb + |b|, d, w, h);
    SecondAt(s, pb, a, b, |d|, |w|, |h|);
  }

  // ----- Between the two numbers: `°?\s*[NS]?,?\s*` -----

  lemma MidItemsTail(tail: seq<Item>)
    ensures DegreesMid + tail == SignSpacesLetter("NS") + ([Atom(Lit(','), Opt), Atom(Space, Star)] + tail)
  {
    DegreesMidItems();
  }

  /** DegreesMid at p, by positions: sign, white space and letter as in
      SignSpacesLetterTaken, then the comma and white space c + w. */
  lemma {:induction false} DegreesMidAt(tail: seq<Item>, s: string, p: nat, open: nat, caps: seq<string>,
                                        nd: nat, nw: nat, nh: nat, c: string, w: string)
    requires open <= p && nd <= 1 && nh <= 1 && (c == "" || c == ",") && AllSpace(w)
    requires var p3 := p + nd + nw + nh; p3 + |c| + |w| < |s| && s[p3..p3 + |c| + |w|] == c + w
    requires nd == 1 ==> s[p] == '°'
    requires nd == 0 ==> s[p] != '°'
    requires forall j :: p + nd <= j < p + nd + nw ==> IsSpace(s[j])
    requires !IsSpace(s[p + nd + nw])
    requires nh == 1 ==> Fold(s[p + nd + nw]) == 'N' || Fold(s[p + nd + nw]) == 'S'
    requires nh == 0 ==> Fold(s[p + nd + nw]) != 'N' && Fold(s[p + nd + nw]) != 'S'
    requires var p5 := p + nd + nw + nh + |c| + |w|; !IsSpace(s[p5]) && s[p5] != ','
    requires MatchAt(tail, true, s, p + nd + nw + nh + |c| + |w|, open, caps).Some?
    ensures MatchAt(DegreesMid + tail, true, s, p, open, caps)
         == MatchAt(tail, true, s, p + nd + nw + nh + |c| + |w|, open, caps)
  {
    var r := [Atom(Lit(','), Opt), Atom(Space, Star)] + tail;
    CommaSpacesOptTaken(tail, true, s, p + nd + nw + nh, open, caps, c, w);
    SignSpacesLetterTaken("NS", r, s, p, open, caps, nd, nw, nh);
    MidItemsTail(tail);
  }

  /** The text from the hemisphere letter on, up to the second number's
      first character x: its first character is neither white space nor
      '°', and folds to N or S exactly when the letter is there. */
  lemma {:induction false} LetterOnward(h: string, c: string, w2: string, x: char)
    requires IsHemisphere(h, "NS") && (c == "" || c == ",") && AllSpace(w2)
    requires h == "" && c == "" ==> w2 == ""
    requires IsDigit(x) || x == '-'
    ensures var u := h + (c + (w2 + [x]));
      && !IsSpace(u[0]) && u[0] != '°'
      && (|h| == 1 ==> Fold(u[0]) == 'N' || Fold(u[0]) == 'S')
      && (|h| == 0 ==> Fold(u[0]) != 'N' && Fold(u[0]) != 'S')
  {
    var u := h + (c + (w2 + [x]));
    if |h| == 1 {
      assert u[0] == h[0];
      LetterCharacter(u[0]);
    } else if |c| == 1 {
      assert u[0] == ',';
    } else {
      assert u[0] == x;
      NumberCharacter(x);
    }
  }

  /** The text between the numbers, with the second number's first
      character x: where its sign, white space and letter are. */
  lemma {:induction false} MidShape(d: string, w1: string, h: string, c: string, w2: string, x: char)
    requires MidPieces(d, w1, h, c, w2)
    requires IsDigit(x) || x == '-'
    ensures var e := d + (w1 + (h + (c + (w2 + [x]))));
      && (|d| == 1 ==> e[0] == '°')
      && (|d| == 0 ==> e[0] != '°')
      && (forall j :: |d| <= j < |d| + |w1| ==> IsSpace(e[j]))
      && !IsSpace(e[|d| + |w1|])
      && (|h| == 1 ==> Fold(e[|d| + |w1|]) == 'N' || Fold(e[|d| + |w1|]) == 'S')
      && (|h| == 0 ==> Fold(e[|d| + |w1|]) != 'N' && Fold(e[|d| + |w1|]) != 'S')
  {
    var u := h + (c + (w2 + [x]));
    var t := w1 + u;
    var e := d + t;
    LetterOnward(h, c, w2, x);
    assert forall j :: 0 <= j < |w1| ==> t[j] == w1[j];
    assert forall j :: |d| <= j < |e| ==> e[j] == t[j - |d|];
    assert t[|w1|] == u[0];
    if |d| == 0 && |w1| > 0 {
      SpaceCharacter(e[0]);
    }
  }

  lemma MiddleSlice<T>(u: seq<T>, v: seq<T>, w: seq<T>)
    ensures (u + v + w)[|u|..|u| + |v|] == v
  {
  }

  /** MidShape, read at position p of a text that holds it. */
  lemma {:induction false} MidAtText(s: string, p: nat, d: string, w1: string, h: string, c: string, w2: string, x: char)
    requires MidPieces(d, w1, h, c, w2)
    requires IsDigit(x) || x == '-'
    requires var e := d + (w1 + (h + (c + (w2 + [x])))); p + |e| <= |s| && s[p..p + |e|] == e
    ensures |d| == 1 ==> s[p] == '°'
    ensures |d| == 0 ==> s[p] != '°'
    ensures forall j :: p + |d| <= j < p + |d| + |w1| ==> IsSpace(s[j])
    ensures !IsSpace(s[p + |d| + |w1|])
    ensures |h| == 1 ==> Fold(s[p + |d| + |w1|]) == 'N' || Fold(s[p + |d| + |w1|]) == 'S'
    ensures |h| == 0 ==> Fold(s[p + |d| + |w1|]) != 'N' && Fold(s[p + |d| + |w1|]) != 'S'
  {
    var e := d + (w1 + (h + (c + (w2 + [x]))));
    MidShape(d, w1, h, c, w2, x);
    assert s[p] == e[0];
    assert s[p + |d| + |w1|] == e[|d| + |w1|];
    forall j | p + |d| <= j < p + |d| + |w1|
      ensures IsSpace(s[j])
    {
      assert s[j] == e[j - p];
    }
  }

  /** Where the comma and the white space after it are. */
  lemma {:induction false} CommaAtText(s: string, p: nat, d: string, w1: string, h: string, c: string, w2: string, x: char)
    requires var e := d + (w1 + (h + (c + (w2 + [x])))); p + |e| <= |s| && s[p..p + |e|] == e
    ensures var p3 := p + |d| + |w1| + |h|; s[p3..p3 + |c| + |w2|] == c + w2
  {
    var e := d + (w1 + (h + (c + (w2 + [x]))));
    var i := |d| + |w1| + |h|;
    MiddleSlice(d + w1 + h, c + w2, [x]);
    assert e == (d + w1 + h) + (c + w2) + [x];
    PieceAt(s, p, e, i, i + |c| + |w2|);
  }

  /** Where the second number's first character is. */
  lemma {:induction false} LastAtText(s: string, p: nat, d: string, w1: string, h: string, c: string, w2: string, x: char)
    requires var e := d + (w1 + (h + (c + (w2 + [x])))); p + |e| <= |s| && s[p..p + |e|] == e
    ensures s[p + |d| + |w1| + |h| + |c| + |w2|] == x
  {
    var e := d + (w1 + (h + (c + (w2 + [x]))));
    assert e[|e| - 1] == x;
    PieceAt(s, p, e, |e| - 1, |e|);
  }

  /** The character after the first number is never part of it. */
  lemma {:induction false} MidStart(d: string, w1: string, h: string, c: string, w2: string, x: char)
    requires MidPieces(d, w1, h, c, w2)
    requires d + w1 + h + c + w2 != "" || x == '-'
    ensures var e := d + (w1 + (h + (c + (w2 + [x])))); !IsDigit(e[0]) && e[0] != '.'
  {
    var e := d + (w1 + (h + (c + (w2 + [x]))));
    if |d| == 1 {
      assert e[0] == '°';
    } else if |w1| > 0 {
      assert e[0] == w1[0];
    } else if |h| > 0 {
      assert e[0] == h[0];
      LetterCharacter(e[0]);
    } else if |c| > 0 {
      assert e[0] == ',';
    } else {
      assert e[0] == x;
    }
  }

  /** DegreesMid on the text between the two numbers, followed by the
      second number's first character x. */
  lemma {:induction false} MidTaken(tail: seq<Item>, s: string, p: nat, open: nat, caps: seq<string>,
                                    d: string, w1: string, h: string, c: string, w2: string, x: char)
    requires MidPieces(d, w1, h, c, w2)
    requires IsDigit(x) || x == '-'
    requires open <= p
    requires var e := d + (w1 + (h + (c + (w2 + [x])))); p + |e| <= |s| && s[p..p + |e|] == e
    requires MatchAt(tail, true, s, p + |d| + |w1| + |h| + |c| + |w2|, open, caps).Some?
    ensures MatchAt(DegreesMid + tail, true, s, p, open, caps)
         == MatchAt(tail, true, s, p + |d| + |w1| + |h| + |c| + |w2|, open, caps)
  {
    MidAtText(s, p, d, w1, h, c, w2, x);
    CommaAtText(s, p, d, w1, h, c, w2, x);
    LastAtText(s, p, d, w1, h, c, w2, x);
    NumberCharacter(x);
    DegreesMidAt(tail, s, p, open, caps, |d|, |w1|, |h|, c, w2);
  }

  // ----- The whole text -----

  /** DegreesRest from the end of the first number at p. */
  lemma {:induction false} RestTaken(s: string, p: nat, a: string, d1: string, w1: string, h1: string, c: string, w2: string,
                                     b: string, d2: string, w3: string, h2: string)
    requires MidPieces(d1, w1, h1, c, w2) && IsNumberText(b) && EndPieces(d2, w3, h2)
    requires var pb := p + |d1| + |w1| + |h1| + |c| + |w2|;
      pb + |b| + |d2| + |w3| + |h2| == |s|
      && s[p..pb + 1] == d1 + (w1 + (h1 + (c + (w2 + [b[0]]))))
      && s[pb..pb + |b|] == b && s[pb + |b|..] == d2 + w3 + h2
    ensures MatchAt(DegreesMid + (NumberGroup + DegreesEnd), true, s, p, 0, [a]) == Some([a, b])
  {
    var pb := p + |d1| + |w1| + |h1| + |c| + |w2|;
    NumberEnds(b);
    SecondDegreesTaken(s, pb, a, b, d2, w3, h2);
    assert MatchAt(NumberGroup + DegreesEnd, true, s, p + |d1| + |w1| + |h1| + |c| + |w2|, 0, [a]).Some?;
    MidTaken(NumberGroup + DegreesEnd, s, p, 0, [a], d1, w1, h1, c, w2, b[0]);
  }

  /** DegreesPair on a text laid out as the pieces of DegreesText. */
  lemma {:induction false} DegreesMatchesAt(s: string, a: string, d1: string, w1: string, h1: string, c: string, w2: string,
                                            b: string, d2: string, w3: string, h2: string)
    requires IsDegreesText(a, d1, w1, h1, c, w2, b, d2, w3, h2)
    requires var pb := |a| + |d1| + |w1| + |h1| + |c| + |w2|;
      pb + |b| + |d2| + |w3| + |h2| == |s| && s[..|a|] == a
      && s[|a|..pb + 1] == d1 + (w1 + (h1 + (c + (w2 + [b[0]]))))
      && s[pb..pb + |b|] == b && s[pb + |b|..] == d2 + w3 + h2
    ensures Exec(DegreesPair, s) == Some([a, b])
  {
    var e := d1 + (w1 + (h1 + (c + (w2 + [b[0]]))));
    RestTaken(s, |a|, a, d1, w1, h1, c, w2, b, d2, w3, h2);
    MidStart(d1, w1, h1, c, w2, b[0]);
    PieceAt(s, |a|, e, 0, 1);
    DegreesItems();
    AnchoredFirstGroup(DegreesPair, DegreesRest, s, a);
  }

  /** Where DegreesText puts its pieces. */
  lemma {:induction false} DegreesLayout(a: string, d1: string, w1: string, h1: string, c: string, w2: string,
                                         b: string, d2: string, w3: string, h2: string)
    requires |b| > 0
    ensures var s := DegreesText(a, d1, w1, h1, c, w2, b, d2, w3, h2);
      var pb := |a| + |d1| + |w1| + |h1| + |c| + |w2|;
      && pb + |b| + |d2| + |w3| + |h2| == |s| && s[..|a|] == a
      && s[|a|..pb + 1] == d1 + (w1 + (h1 + (c + (w2 + [b[0]]))))
      && s[pb..pb + |b|] == b && s[pb + |b|..] == d2 + w3 + h2
  {
    var m := d1 + w1 + h1 + c + w2;
    var t := b + (d2 + w3 + h2);
    var s := a + m + t;
    assert s == DegreesText(a, d1, w1, h1, c, w2, b, d2, w3, h2);
    var pb := |a| + |m|;
    assert s[..|a|] == a;
    assert s[pb..] == t;
    assert t[..|b|] == b && t[|b|..] == d2 + w3 + h2;
    assert s[|a|..pb + 1] == m + [b[0]];
    assert m + [b[0]] == d1 + (w1 + (h1 + (c + (w2 + [b[0]]))));
  }

  /** "a° N, b° E" and its variants: DegreesPair captures the two numbers. */
  lemma DegreesMatches(a: string, d1: string, w1: string, h1: string, c: string, w2: string,
                       b: string, d2: string, w3: string, h2: string)
    requires IsDegreesText(a, d1, w1, h1, c, w2, b, d2, w3, h2)
    ensures Exec(DegreesPair, DegreesText(a, d1, w1, h1, c, w2, b, d2, w3, h2)) == Some([a, b])
  {
    NumberEnds(b);
    DegreesLayout(a, d1, w1, h1, c, w2, b, d2, w3, h2);
    DegreesMatchesAt(DegreesText(a, d1, w1, h1, c, w2, b, d2, w3, h2), a, d1, w1, h1, c, w2, b, d2, w3, h2);
  }

  // ----- What parseCoordinates makes of it -----

  lemma ForeignJoin(x: seq<Item>, y: seq<Item>, ic: bool, c: char)
    requires Foreign(x, ic, c) && Foreign(y, ic, c)
    ensures Foreign(x + y, ic, c)
  {
    assert forall i :: |x| <= i < |x + y| ==> (x + y)[i] == y[i - |x|];
  }

  /** A degree sign or a letter: no part of a number, no comma, no space. */
  predicate Marker(c: char)
  {
    c == '°' || 'A' <= Fold(c) <= 'Z'
  }

  lemma NumberGroupForeign(c: char)
    requires Marker(c)
    ensures Foreign(NumberGroup, false, c)
  {
    if c != '°' {
      LetterCharacter(c);
    }
  }

  /** A marker is accepted by no atom of the comma form, which must reach
      the end of the text. */
  lemma CommaPairForeign(c: char)
    requires Marker(c)
    ensures InputEnd in CommaPair.items && Foreign(CommaPair.items, false, c)
  {
    DegreeNotSpace();
    if c != '°' {
      LetterCharacter(c);
    }
    NumberGroupForeign(c);
    var sep := [Atom(Lit(','), One), Atom(Space, Star)];
    assert Foreign(sep, false, c);
    ForeignJoin(sep, NumberGroup, false, c);
    ForeignJoin(sep + NumberGroup, [InputEnd], false, c);
    assert CommaPairRest == sep + NumberGroup + [InputEnd];
    ForeignJoin(NumberGroup, CommaPairRest, false, c);
    ForeignJoin([InputStart], NumberGroup + CommaPairRest, false, c);
    CommaPairItems();
    assert CommaPair.items[|CommaPair.items| - 1] == InputEnd;
  }

  /** A marker is accepted by no atom of the space form either. */
  lemma SpacePairForeign(c: char)
    requires Marker(c)
    ensures InputEnd in SpacePair.items && Foreign(SpacePair.items, false, c)
  {
    DegreeNotSpace();
    if c != '°' {
      LetterCharacter(c);
    }
    NumberGroupForeign(c);
    assert Foreign([Atom(Space, Plus)], false, c);
    ForeignJoin(NumberGroup, [InputEnd], false, c);
    ForeignJoin([Atom(Space, Plus)], NumberGroup + [InputEnd], false, c);
    ForeignJoin(NumberGroup, SpacePairRest, false, c);
    ForeignJoin([InputStart], NumberGroup + SpacePairRest, false, c);
    SpacePairItems();
    assert SpacePair.items[|SpacePair.items| - 1] == InputEnd;
  }

  /** LabelledPair needs an l at the start of the text. */
  lemma LabelledFails(s: string)
    requires |s| > 0 && (IsDigit(s[0]) || s[0] == '-')
    ensures Exec(LabelledPair, s) == None
  {
    var rest := Lits("at:") + ([Atom(Space, Star)] + (NumberGroup + LabelledRest));
    LabelledItems();
    assert Lits("lat:") == [Atom(Lit('l'), One)] + Lits("at:");
    assert LabelledPair.items == [InputStart] + ([Atom(Lit('l'), One)] + rest);
    ExecAnchored(LabelledPair, s);
    StartTaken([Atom(Lit('l'), One)] + rest, true, s, []);
    RunIs(Lit('l'), true, s, 0, 1, 0);
  }

  /** The text of the degrees form is left whole by trim. */
  lemma {:induction false} DegreesTrimmed(a: string, d1: string, w1: string, h1: string, c: string, w2: string,
                                          b: string, d2: string, w3: string, h2: string)
    requires IsDegreesText(a, d1, w1, h1, c, w2, b, d2, w3, h2)
    ensures var s := DegreesText(a, d1, w1, h1, c, w2, b, d2, w3, h2);
      |s| > 0 && (IsDigit(s[0]) || s[0] == '-') && Trim(s) == s
  {
    var s := DegreesText(a, d1, w1, h1, c, w2, b, d2, w3, h2);
    var e := d2 + w3 + h2;
    NumberEnds(a);
    NumberEnds(b);
    assert s[0] == a[0];
    NumberCharacter(a[0]);
    assert s == (a + (d1 + w1 + h1 + c + w2) + b) + e;
    if |h2| == 1 {
      assert s[|s| - 1] == h2[0];
      LetterCharacter(h2[0]);
    } else if |d2| == 1 {
      assert e == "°";
      assert s[|s| - 1] == '°';
      DegreeNotSpace();
    } else {
      assert s[|s| - 1] == b[|b| - 1];
      NumberCharacter(b[|b| - 1]);
    }
    Untrimmed(s);
  }

  /** A character of the text that marks it as the degrees form: a degree
      sign or a hemisphere letter. */
  lemma {:induction false} DegreesMarker(a: string, d1: string, w1: string, h1: string, c: string, w2: string,
                                         b: string, d2: string, w3: string, h2: string) returns (k: nat)
    requires IsDegreesText(a, d1, w1, h1, c, w2, b, d2, w3, h2) && HasMarker(d1, h1, d2, h2)
    ensures var s := DegreesText(a, d1, w1, h1, c, w2, b, d2, w3, h2);
      k < |s| && Marker(s[k])
  {
    var s := DegreesText(a, d1, w1, h1, c, w2, b, d2, w3, h2);
    var m := d1 + w1 + h1 + c + w2;
    var e := d2 + w3 + h2;
    assert s == a + m + b + e;
    if |d1| == 1 {
      k := |a|;
      assert s[k] == m[0] == '°';
    } else if |h1| == 1 {
      k := |a| + |w1|;
      assert s[k] == m[|w1|] == h1[0];
    } else if |d2| == 1 {
      k := |a| + |m| + |b|;
      assert s[k] == e[0] == '°';
    } else {
      k := |s| - 1;
      assert s[k] == e[|e| - 1] == h2[0];
    }
  }

  /** When the comma and the space forms find nothing in it, parseCoordinates
      reads a degrees text through the degrees pattern: the labelled form
      needs an l at the start. */
  lemma {:induction false} DegreesRead(a: string, d1: string, w1: string, h1: string, c: string, w2: string,
                                       b: string, d2: string, w3: string, h2: string)
    requires IsDegreesText(a, d1, w1, h1, c, w2, b, d2, w3, h2)
    requires InRange(TokenValue(a).value, TokenValue(b).value)
    requires var s := DegreesText(a, d1, w1, h1, c, w2, b, d2, w3, h2);
      Exec(CommaPair, s) == None && Exec(SpacePair, s) == None
    ensures ParseCoordinates(DegreesText(a, d1, w1, h1, c, w2, b, d2, w3, h2))
         == Some(Coord(TokenValue(a).value, TokenValue(b).value))
  {
    var s := DegreesText(a, d1, w1, h1, c, w2, b, d2, w3, h2);
    DegreesTrimmed(a, d1, w1, h1, c, w2, b, d2, w3, h2);
    LabelledFails(s);
    DegreesMatches(a, d1, w1, h1, c, w2, b, d2, w3, h2);
    NumberEnds(a);
    NumberEnds(b);
    assert TryPattern(DegreesPair, s, false).Some?;
    FirstOfFirst(CoordinatePatterns, s, false, 3);
  }

  /** A degrees text with a degree sign or a hemisphere letter: the comma
      and the space forms stop at that character. */
  lemma {:induction false} MarkedCoordinates(a: string, d1: string, w1: string, h1: string, c: string, w2: string,
                                             b: string, d2: string, w3: string, h2: string)
    requires IsDegreesText(a, d1, w1, h1, c, w2, b, d2, w3, h2) && HasMarker(d1, h1, d2, h2)
    requires InRange(TokenValue(a).value, TokenValue(b).value)
    ensures ParseCoordinates(DegreesText(a, d1, w1, h1, c, w2, b, d2, w3, h2))
         == Some(Coord(TokenValue(a).value, TokenValue(b).value))
  {
    var s := DegreesText(a, d1, w1, h1, c, w2, b, d2, w3, h2);
    var k := DegreesMarker(a, d1, w1, h1, c, w2, b, d2, w3, h2);
    CommaPairForeign(s[k]);
    SpacePairForeign(s[k]);
    ExecForeign(CommaPair, s, k);
    ExecForeign(SpacePair, s, k);
    DegreesRead(a, d1, w1, h1, c, w2, b, d2, w3, h2);
  }

  /** "a-b", a number run straight into a negative one: there is neither a
      comma nor white space for the comma and the space forms, and only the
      degrees pattern reads it. */
  lemma {:induction false} JoinedCoordinates(a: string, b: string)
    requires IsNumberText(a) && IsNumberText(b) && b[0] == '-'
    requires InRange(TokenValue(a).value, TokenValue(b).value)
    ensures ParseCoordinates(a + b) == Some(Coord(TokenValue(a).value, TokenValue(b).value))
  {
    var s := a + b;
    assert DegreesText(a, "", "", "", "", "", b, "", "", "") == s;
    assert MidPieces("", "", "", "", "") && EndPieces("", "", "");
    NoComma(a, "", b);
    assert a + "" + b == s;
    NumberEnds(a);
    NumberEnds(b);
    forall j | 0 <= j < |s|
      ensures !ClassHas(Space, false, s[j])
    {
      if j < |a| {
        NumberCharNotSpace(a[j]);
      } else {
        assert s[j] == b[j - |a|];
        NumberCharNotSpace(b[j - |a|]);
      }
    }
    assert CommaPair.items[7] == Atom(Lit(','), One);
    ExecNeeds(CommaPair, s, 7);
    assert SpacePair.items[7] == Atom(Space, Plus);
    ExecNeeds(SpacePair, s, 7);
    DegreesRead(a, "", "", "", "", "", b, "", "", "");
  }

  /** What the comma form needs before its comma: a caret, a group and the
      number atoms, none of which takes white space. */
  lemma CommaPairHead(c: char)
    requires IsSpace(c)
    ensures CommaPair.items[7] == Atom(Lit(','), One) && Foreign(CommaPair.items[..7], false, c)
  {
    assert CommaPair.items[..7] == [InputStart] + NumberGroup;
  }

  /** The space form has no atom that takes a comma. */
  lemma SpacePairComma()
    ensures InputEnd in SpacePair.items && Foreign(SpacePair.items, false, ',')
  {
    assert SpacePair.items[|SpacePair.items| - 1] == InputEnd;
  }

  /** "a ,b", with white space before the comma: the comma form finds white
      space where its comma should be and the space form finds a comma, so
      only the degrees pattern reads it. */
  lemma {:induction false} SpacedCommaCoordinates(a: string, w1: string, w2: string, b: string)
    requires IsNumberText(a) && IsNumberText(b) && AllSpace(w1) && |w1| > 0 && AllSpace(w2)
    requires InRange(TokenValue(a).value, TokenValue(b).value)
    ensures ParseCoordinates(a + w1 + "," + w2 + b) == Some(Coord(TokenValue(a).value, TokenValue(b).value))
  {
    var s := a + w1 + "," + w2 + b;
    assert DegreesText(a, "", w1, "", ",", w2, b, "", "", "") == s;
    assert MidPieces("", w1, "", ",", w2) && EndPieces("", "", "");
    NumberEnds(a);
    assert s[|a|] == w1[0];
    CommaPairHead(s[|a|]);
    forall j | 0 <= j <= |a|
      ensures !ClassHas(Lit(','), false, s[j])
    {
      if j < |a| {
        assert s[j] == a[j];
        NumberCharacter(a[j]);
      }
    }
    ExecBlocked(CommaPair, s, 7, |a|);
    assert s[|a| + |w1|] == ',';
    SpacePairComma();
    ExecForeign(SpacePair, s, |a| + |w1|);
    DegreesRead(a, "", w1, "", ",", w2, b, "", "", "");
  }

  /** A degrees text without a degree sign or a hemisphere letter is a
      number, white space, an optional comma, white space and a number. */
  lemma UnmarkedText(a: string, d1: string, w1: string, h1: string, c: string, w2: string,
                     b: string, d2: string, w3: string, h2: string)
    requires IsDegreesText(a, d1, w1, h1, c, w2, b, d2, w3, h2) && !HasMarker(d1, h1, d2, h2)
    ensures (c == "" || c == ",") && AllSpace(w1) && AllSpace(w2) && (c == "" ==> w2 == "")
    ensures w1 + c + w2 != "" || b[0] == '-'
    ensures DegreesText(a, d1, w1, h1, c, w2, b, d2, w3, h2) == a + w1 + c + w2 + b
  {
  }

  /** The unmarked texts: "a,b" and "a b" are the comma and the space forms,
      "a-b" and "a ,b" are left to the degrees pattern. */
  lemma {:induction false} UnmarkedCoordinates(a: string, w1: string, c: string, w2: string, b: string)
    requires IsNumberText(a) && IsNumberText(b) && AllSpace(w1) && AllSpace(w2)
    requires (c == "" || c == ",") && (c == "" ==> w2 == "") && (w1 + c + w2 != "" || b[0] == '-')
    requires InRange(TokenValue(a).value, TokenValue(b).value)
    ensures ParseCoordinates(a + w1 + c + w2 + b) == Some(Coord(TokenValue(a).value, TokenValue(b).value))
  {
    if c == "" {
      assert a + w1 + c + w2 + b == a + w1 + b;
      if w1 == "" {
        assert a + w1 + b == a + b;
        JoinedCoordinates(a, b);
      } else {
        SpacePairCoordinates(a, w1, b);
      }
    } else if w1 == "" {
      assert a + w1 + c + w2 + b == a + "," + w2 + b;
      CommaPairCoordinates(a, w2, b);
    } else {
      assert a + w1 + c + w2 + b == a + w1 + "," + w2 + b;
      SpacedCommaCoordinates(a, w1, w2, b);
    }
  }

  /** parseCoordinates reads every text of the degrees form, "a° N, b° E"
      and all its variants (degree signs, white space, hemisphere letters in
      either case and the comma all optional), as its two numbers whenever
      they are in range: "a,b" and "a b" through the comma and the space
      forms, every other one through the degrees pattern. */
  lemma {:induction false} DegreesCoordinates(a: string, d1: string, w1: string, h1: string, c: string, w2: string,
                                              b: string, d2: string, w3: string, h2: string)
    requires IsDegreesText(a, d1, w1, h1, c, w2, b, d2, w3, h2)
    requires InRange(TokenValue(a).value, TokenValue(b).value)
    ensures ParseCoordinates(DegreesText(a, d1, w1, h1, c, w2, b, d2, w3, h2))
         == Some(Coord(TokenValue(a).value, TokenValue(b).value))
  {
    if HasMarker(d1, h1, d2, h2) {
      MarkedCoordinates(a, d1, w1, h1, c, w2, b, d2, w3, h2);
    } else {
      UnmarkedText(a, d1, w1, h1, c, w2, b, d2, w3, h2);
      UnmarkedCoordinates(a, w1, c, w2, b);
    }
  }

  /** "a° h1, b° h2", with one of the letters on each side, is of the
      degrees form. */
  lemma {:induction false} LetteredForm(a: string, h1: string, b: string, h2: string)
    requires IsNumberText(a) && IsNumberText(b)
    requires h1 == "N" || h1 == "S"
    requires h2 == "E" || h2 == "W"
    ensures IsDegreesText(a, "°", " ", h1, ",", " ", b, "°", " ", h2)
  {
    assert IsSpace(' ');
    assert AllSpace(" ");
    assert IsHemisphere(h1, "NS") && IsHemisphere(h2, "EW");
    assert MidPieces("°", " ", h1, ",", " ");
    assert EndPieces("°", " ", h2);
  }

  lemma {:induction false} LetteredText(a: string, h1: string, b: string, h2: string)
    ensures DegreesText(a, "°", " ", h1, ",", " ", b, "°", " ", h2) == a + "° " + h1 + ", " + b + "° " + h2
  {
    assert "°" + " " == "° " && "," + " " == ", ";
    assert "°" + " " + h1 + "," + " " == "° " + h1 + ", ";
  }

  /** The hemisphere letters are read and dropped: "a° S, b° W" gives the
      same positive numbers as "a° N, b° E", not their negatives. */
  lemma {:induction false} HemisphereIgnored(a: string, h1: string, b: string, h2: string)
    requires IsNumberText(a) && IsNumberText(b)
    requires h1 == "N" || h1 == "S"
    requires h2 == "E" || h2 == "W"
    requires InRange(TokenValue(a).value, TokenValue(b).value)
    ensures ParseCoordinates(a + "° " + h1 + ", " + b + "° " + h2) == Some(Coord(TokenValue(a).value, TokenValue(b).value))
  {
    LetteredForm(a, h1, b, h2);
    LetteredText(a, h1, b, h2);
    DegreesCoordinates(a, "°", " ", h1, ",", " ", b, "°", " ", h2);
  }
}
