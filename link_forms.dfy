/** What parseLocationLink of src/components/LocationInput.tsx makes of the
    link shapes it is written for: `google.com/maps/@lat,lng`, and a
    `q=lat,lng` query parameter in a Google Maps, Apple Maps or Waze link. */
module LinkForms {
  import opened Types
  import opened Numbers
  import opened Patterns
  import opened LocationInput
  import opened CoordinateForms
  import DegreeForms

  // ----- Finding the address -----

  /** The text t, in any case, at position i of s. */
  predicate KeyAt(s: string, i: nat, t: string)
  {
    i + |t| <= |s| && forall j :: 0 <= j < |t| ==> Fold(s[i + j]) == Fold(t[j])
  }

  /** Literal atoms fail from pos when the i-th of them finds no character
      of its own at pos + i. */
  lemma {:induction false} LitsFailAt(t: string, rest: seq<Item>, s: string, pos: nat, open: nat, caps: seq<string>, i: nat)
    requires open <= pos && i < |t| && pos + i <= |s|
    requires pos + i == |s| || Fold(s[pos + i]) != Fold(t[i])
    ensures MatchAt(Lits(t) + rest, true, s, pos, open, caps) == None
    decreases i
  {
    var u := Lits(t[1..]) + rest;
    assert Lits(t) + rest == [Atom(Lit(t[0]), One)] + u;
    assert ([Atom(Lit(t[0]), One)] + u)[1..] == u;
    if pos < |s| && Fold(s[pos]) == Fold(t[0]) {
      assert t[1..][i - 1] == t[i];
      LitsFailAt(t[1..], rest, s, pos + 1, open, caps, i - 1);
      RunIs(Lit(t[0]), true, s, pos, 1, 1);
    } else {
      RunIs(Lit(t[0]), true, s, pos, 1, 0);
    }
  }

  /** Literal atoms fail wherever their text is not. */
  lemma LitsFail(t: string, rest: seq<Item>, s: string, pos: nat, open: nat, caps: seq<string>)
    requires open <= pos <= |s| && !KeyAt(s, pos, t)
    ensures MatchAt(Lits(t) + rest, true, s, pos, open, caps) == None
  {
    if pos + |t| > |s| {
      LitsFailAt(t, rest, s, pos, open, caps, |s| - pos);
    } else {
      var i :| 0 <= i < |t| && Fold(s[pos + i]) != Fold(t[i]);
      LitsFailAt(t, rest, s, pos, open, caps, i);
    }
  }

  /** A pattern that opens with the text key finds its first match no
      earlier than the first place the key is. */
  lemma KeySkip(p: Pattern, key: string, rest: seq<Item>, s: string, n: nat)
    requires p.ignoreCase && p.items == Lits(key) + rest && n <= |s|
    requires forall i :: 0 <= i < n ==> !KeyAt(s, i, key)
    ensures Exec(p, s) == SearchFrom(p, s, n)
  {
    forall j | 0 <= j < n
      ensures MatchAt(p.items, p.ignoreCase, s, j, j, []) == None
    {
      LitsFail(key, rest, s, j, j, []);
    }
    SearchSkip(p, s, 0, n);
  }

  /** A pattern that opens with a key finds nothing in a text where the key
      occurs nowhere, in any case. */
  lemma KeyAbsent(p: Pattern, key: string, rest: seq<Item>, s: string)
    requires p.ignoreCase && p.items == Lits(key) + rest && |key| > 0
    requires forall i :: 0 <= i < |s| ==> !KeyAt(s, i, key)
    ensures Exec(p, s) == None
  {
    KeySkip(p, key, rest, s, |s|);
    LitsFail(key, rest, s, |s|, |s|, []);
  }

  /** So a pattern that opens with the key and matches where the key
      first occurs gives that match. */
  lemma FirstKeyMatch(p: Pattern, key: string, rest: seq<Item>, s: string, n: nat, caps: seq<string>)
    requires p.ignoreCase && p.items == Lits(key) + rest && n <= |s|
    requires forall i :: 0 <= i < n ==> !KeyAt(s, i, key)
    requires MatchAt(p.items, true, s, n, n, []) == Some(caps)
    ensures Exec(p, s) == Some(caps)
  {
    KeySkip(p, key, rest, s, n);
  }

  /** The key read at p, in the same case. */
  lemma KeyTaken(key: string, rest: seq<Item>, s: string, p: nat, open: nat, caps: seq<string>)
    requires open <= p && p + |key| <= |s| && s[p..p + |key|] == key
    requires MatchAt(rest, true, s, p + |key|, open, caps).Some?
    ensures MatchAt(Lits(key) + rest, true, s, p, open, caps) == MatchAt(rest, true, s, p + |key|, open, caps)
  {
    assert forall j :: 0 <= j < |key| ==> s[p + j] == key[j];
    LitsTaken(key, rest, true, s, p, open, caps);
  }

  // ----- The pair: `(-?\d+\.?\d*),(-?\d+\.?\d*)` -----

  const PairItems: seq<Item> := NumberGroup + (Lits(",") + NumberGroup)

  /** The number a at p, up to where it ends, then rest. */
  lemma NumberTakenAs(rest: seq<Item>, s: string, p: nat, open: nat, caps: seq<string>, a: string)
    requires open <= p && p + |a| <= |s| && s[p..p + |a|] == a && IsNumberText(a)
    requires p + |a| == |s| || (!IsDigit(s[p + |a|]) && s[p + |a|] != '.')
    requires MatchAt(rest, true, s, p + |a|, p, caps + [a]).Some?
    ensures MatchAt(NumberGroup + rest, true, s, p, open, caps) == MatchAt(rest, true, s, p + |a|, p, caps + [a])
  {
    NumberGroupTaken(rest, true, s, p, open, caps, |a|);
  }

  /** The second number b at pb, up to where it ends. */
  lemma {:induction false} SecondNumberTaken(s: string, pb: nat, open: nat, a: string, b: string)
    requires open <= pb && pb + |b| <= |s| && s[pb..pb + |b|] == b && IsNumberText(b)
    requires pb + |b| == |s| || (!IsDigit(s[pb + |b|]) && s[pb + |b|] != '.')
    ensures MatchAt(NumberGroup, true, s, pb, open, [a]) == Some([a, b])
  {
    assert NumberGroup + [] == NumberGroup;
    assert [a] + [b] == [a, b];
    NumberGroupTaken([], true, s, pb, open, [a], |b|);
  }

  /** ",b" at pc. */
  lemma {:induction false} CommaSecondTaken(s: string, pc: nat, open: nat, a: string, b: string)
    requires open <= pc && pc + 1 + |b| <= |s| && s[pc] == ',' && s[pc + 1..pc + 1 + |b|] == b && IsNumberText(b)
    requires pc + 1 + |b| == |s| || (!IsDigit(s[pc + 1 + |b|]) && s[pc + 1 + |b|] != '.')
    ensures MatchAt(Lits(",") + NumberGroup, true, s, pc, open, [a]) == Some([a, b])
  {
    SecondNumberTaken(s, pc + 1, open, a, b);
    assert s[pc..pc + 1] == ",";
    KeyTaken(",", NumberGroup, s, pc, open, [a]);
  }

  /** "a,b" at p, the first number ended by the comma and the second by
      the end of the text or a character that cannot continue it. */
  lemma {:induction false} PairTaken(s: string, p: nat, open: nat, a: string, b: string)
    requires open <= p && IsNumberText(a) && IsNumberText(b)
    requires var pb := p + |a| + 1;
      pb + |b| <= |s| && s[p..p + |a|] == a && s[p + |a|] == ',' && s[pb..pb + |b|] == b
      && (pb + |b| == |s| || (!IsDigit(s[pb + |b|]) && s[pb + |b|] != '.'))
    ensures MatchAt(PairItems, true, s, p, open, []) == Some([a, b])
  {
    CommaSecondTaken(s, p + |a|, p, a, b);
    assert [] + [a] == [a];
    NumberTakenAs(Lits(",") + NumberGroup, s, p, open, [], a);
  }

  /** Where "a,b" lies in u + a + "," + b + post. */
  lemma {:induction false} PairLayout(u: string, a: string, b: string, post: string)
    requires post == "" || (!IsDigit(post[0]) && post[0] != '.')
    ensures var s := u + a + "," + b + post;
      var pb := |u| + |a| + 1;
      pb + |b| <= |s| && s[|u|..|u| + |a|] == a && s[|u| + |a|] == ',' && s[pb..pb + |b|] == b
      && (pb + |b| == |s| || (!IsDigit(s[pb + |b|]) && s[pb + |b|] != '.'))
  {
    var s := u + a + "," + b + post;
    var pb := |u| + |a| + 1;
    assert s == (u + a) + ("," + (b + post));
    assert s[|u|..|u| + |a|] == a;
    assert s[pb..] == b + post;
    assert s[pb..pb + |b|] == b;
    if post != "" {
      assert s[pb + |b|] == post[0];
    }
  }

  /** A pattern that captures two number tokens in range gives them as the
      coordinates. */
  lemma PairValidated(p: Pattern, s: string, a: string, b: string)
    requires IsNumberText(a) && IsNumberText(b) && Exec(p, s) == Some([a, b])
    requires InRange(TokenValue(a).value, TokenValue(b).value)
    ensures TryPattern(p, s, true) == Some(Coord(TokenValue(a).value, TokenValue(b).value))
  {
    NumberEnds(a);
    NumberEnds(b);
    assert BothGroups([a, b]);
  }

  lemma LinkPatternsAre()
    ensures LinkPatterns[0] == GoogleQuery && LinkPatterns[1] == GoogleAt
    ensures LinkPatterns[4] == AppleQuery && LinkPatterns[7] == WazeQuery
  {
  }

  /** parseLocationLink gives what the i-th link pattern gives when those
      before it gave nothing. */
  lemma LinkPatternWins(link: string, i: nat, c: Coord)
    requires i < |LinkPatterns| && TryPattern(LinkPatterns[i], Trim(link), true) == Some(c)
    requires forall j :: 0 <= j < i ==> TryPattern(LinkPatterns[j], Trim(link), true).None?
    ensures ParseLocationLink(link) == Some(c)
  {
    FirstOfFirst(LinkPatterns, Trim(link), true, i);
  }

  // ----- google.com/maps/@lat,lng -----

  const AtKey := "google.com/maps/@"

  lemma GoogleAtItems()
    ensures GoogleAt.ignoreCase && GoogleAt.items == Lits(AtKey) + PairItems
  {
  }

  /** The link text pre + "google.com/maps/@" + a + "," + b + post. */
  function AtText(pre: string, a: string, b: string, post: string): string
  {
    pre + AtKey + a + "," + b + post
  }

  /** The two numbers end where they should, and the address does not
      occur (in any case) before the end of pre. */
  predicate IsAtText(pre: string, a: string, b: string, post: string)
  {
    IsNumberText(a) && IsNumberText(b)
    && (post == "" || (!IsDigit(post[0]) && post[0] != '.'))
    && forall i :: 0 <= i < |pre| ==> !KeyAt(AtText(pre, a, b, post), i, AtKey)
  }

  /** GoogleAt on a text where the address first occurs at n, followed
      by "a,b". */
  lemma {:induction false} AtMatchesAt(s: string, n: nat, a: string, b: string)
    requires IsNumberText(a) && IsNumberText(b)
    requires forall i :: 0 <= i < n ==> !KeyAt(s, i, AtKey)
    requires n + |AtKey| <= |s| && s[n..n + |AtKey|] == AtKey
    requires var p := n + |AtKey|; var pb := p + |a| + 1;
      pb + |b| <= |s| && s[p..p + |a|] == a && s[p + |a|] == ',' && s[pb..pb + |b|] == b
      && (pb + |b| == |s| || (!IsDigit(s[pb + |b|]) && s[pb + |b|] != '.'))
    ensures Exec(GoogleAt, s) == Some([a, b])
  {
    KeyPairTaken(AtKey, s, n, a, b);
    GoogleAtItems();
    FirstKeyMatch(GoogleAt, AtKey, PairItems, s, n, [a, b]);
  }

  /** The key at n, then "a,b". */
  lemma {:induction false} KeyPairTaken(key: string, s: string, n: nat, a: string, b: string)
    requires IsNumberText(a) && IsNumberText(b)
    requires n + |key| <= |s| && s[n..n + |key|] == key
    requires var p := n + |key|; var pb := p + |a| + 1;
      pb + |b| <= |s| && s[p..p + |a|] == a && s[p + |a|] == ',' && s[pb..pb + |b|] == b
      && (pb + |b| == |s| || (!IsDigit(s[pb + |b|]) && s[pb + |b|] != '.'))
    ensures MatchAt(Lits(key) + PairItems, true, s, n, n, []) == Some([a, b])
  {
    PairTaken(s, n + |key|, n, a, b);
    KeyThen(key, PairItems, s, n, [a, b]);
  }

  /** The key at n, then whatever matches after it. */
  lemma KeyThen(key: string, rest: seq<Item>, s: string, n: nat, caps: seq<string>)
    requires n + |key| <= |s| && s[n..n + |key|] == key
    requires MatchAt(rest, true, s, n + |key|, n, []) == Some(caps)
    ensures MatchAt(Lits(key) + rest, true, s, n, n, []) == Some(caps)
  {
    KeyTaken(key, rest, s, n, n, []);
  }

  /** GoogleAt captures the two numbers after the first "google.com/maps/@". */
  lemma {:induction false} AtMatches(pre: string, a: string, b: string, post: string)
    requires IsAtText(pre, a, b, post)
    ensures Exec(GoogleAt, AtText(pre, a, b, post)) == Some([a, b])
  {
    var s := AtText(pre, a, b, post);
    var n := |pre|;
    assert s == (pre + AtKey) + a + "," + b + post;
    PairLayout(pre + AtKey, a, b, post);
    assert s[n..n + |AtKey|] == AtKey;
    AtMatchesAt(s, n, a, b);
  }

  /** parseLocationLink reads `google.com/maps/@lat,lng` as the two numbers
      whenever they are in range and the pattern tried before it (a `q`
      parameter after "maps.google.com/") gave nothing. */
  lemma {:induction false} GoogleAtLink(link: string, pre: string, a: string, b: string, post: string)
    requires Trim(link) == AtText(pre, a, b, post) && IsAtText(pre, a, b, post)
    requires InRange(TokenValue(a).value, TokenValue(b).value)
    requires forall j :: 0 <= j < 1 ==> TryPattern(LinkPatterns[j], Trim(link), true).None?
    ensures ParseLocationLink(link) == Some(Coord(TokenValue(a).value, TokenValue(b).value))
  {
    AtMatches(pre, a, b, post);
    PairValidated(GoogleAt, Trim(link), a, b);
    LinkPatternsAre();
    LinkPatternWins(link, 1, Coord(TokenValue(a).value, TokenValue(b).value));
  }

  // ----- A `q=lat,lng` parameter: `.*[?&]q=(...),(...)` -----

  /** `[?&]q=(...),(...)`: QueryPair after its `.*`. */
  const QueryTail: seq<Item> := [Atom(OneOf("?&"), One)] + (Lits("q=") + PairItems)

  lemma QueryPairItems()
    ensures QueryPair == [Atom(AnyButNewline, Star)] + QueryTail
  {
    assert Lits(",") + NumberGroup == Lits(",") + NumberGroup + [];
  }

  /** `[?&]` under the `i` flag accepts exactly '?' and '&'. */
  lemma SeparatorClass(c: char)
    ensures ClassHas(OneOf("?&"), true, c) <==> c == '?' || c == '&'
  {
    if c == '?' || c == '&' {
      assert c in "?&" && Fold(c) == Fold(c);
    }
  }

  /** "q=a,b" at pq. */
  lemma {:induction false} AssignmentTaken(s: string, pq: nat, open: nat, a: string, b: string)
    requires open <= pq && IsNumberText(a) && IsNumberText(b)
    requires var p := pq + 2; var pb := p + |a| + 1;
      pb + |b| <= |s| && s[pq..p] == "q=" && s[p..p + |a|] == a && s[p + |a|] == ',' && s[pb..pb + |b|] == b
      && (pb + |b| == |s| || (!IsDigit(s[pb + |b|]) && s[pb + |b|] != '.'))
    ensures MatchAt(Lits("q=") + PairItems, true, s, pq, open, []) == Some([a, b])
  {
    PairTaken(s, pq + 2, open, a, b);
    KeyTaken("q=", PairItems, s, pq, open, []);
  }

  /** QueryTail at sp: the separator, "q=" and the pair. */
  lemma {:induction false} QueryTailTaken(s: string, sp: nat, open: nat, caps: seq<string>)
    requires open <= sp < |s| && (s[sp] == '?' || s[sp] == '&')
    requires MatchAt(Lits("q=") + PairItems, true, s, sp + 1, open, []) == Some(caps)
    ensures MatchAt(QueryTail, true, s, sp, open, []) == Some(caps)
  {
    SeparatorClass(s[sp]);
    assert QueryTail[1..] == Lits("q=") + PairItems;
    GreedyStep(QueryTail, true, s, sp, open, [], 1);
  }

  /** No `?q=` or `&q=` (in any case) after sp. */
  predicate LastQueryAt(s: string, sp: nat)
  {
    forall j :: sp < j < |s| ==> (s[j] != '?' && s[j] != '&') || !KeyAt(s, j + 1, "q=")
  }

  /** At a separator QueryTail goes on with "q=" after it. */
  lemma QueryTailAt(s: string, q: nat, open: nat, caps: seq<string>)
    requires open <= q < |s| && (s[q] == '?' || s[q] == '&')
    ensures MatchAt(QueryTail, true, s, q, open, caps) == MatchAt(Lits("q=") + PairItems, true, s, q + 1, open, caps)
  {
    SeparatorClass(s[q]);
    RunIs(OneOf("?&"), true, s, q, 1, 1);
    assert QueryTail[1..] == Lits("q=") + PairItems;
  }

  /** QueryTail fails where there is no separator, and at a separator that
      "q=" (in any case) does not follow. */
  lemma QueryTailFails(s: string, q: nat, open: nat, caps: seq<string>)
    requires open <= q <= |s|
    requires q == |s| || (s[q] != '?' && s[q] != '&') || !KeyAt(s, q + 1, "q=")
    ensures MatchAt(QueryTail, true, s, q, open, caps) == None
  {
    if q < |s| && (s[q] == '?' || s[q] == '&') {
      QueryTailAt(s, q, open, caps);
      LitsFail("q=", PairItems, s, q + 1, open, caps);
    } else {
      if q < |s| {
        SeparatorClass(s[q]);
      }
      RunIs(OneOf("?&"), true, s, q, 1, 0);
    }
  }

  /** The greedy `.*` runs to the end of the line and gives back characters
      until QueryTail matches: at the last `?q=` or `&q=`, which is at sp. */
  lemma {:induction false} StarGivesBack(s: string, pos: nat, sp: nat, open: nat, caps: seq<string>)
    requires open <= pos <= sp < |s|
    requires forall j :: pos <= j < sp ==> !IsLineTerminator(s[j])
    requires LastQueryAt(s, sp)
    requires MatchAt(QueryTail, true, s, sp, open, []) == Some(caps)
    ensures MatchAt([Atom(AnyButNewline, Star)] + QueryTail, true, s, pos, open, []) == Some(caps)
  {
    TailFailsAfter(s, sp, open);
    StarBackTo(QueryTail, s, pos, sp, open, caps);
  }

  /** `.*` followed by any items that match at sp and nowhere after it on
      the line. */
  lemma {:induction false} StarBackTo(tail: seq<Item>, s: string, pos: nat, sp: nat, open: nat, caps: seq<string>)
    requires open <= pos <= sp <= |s|
    requires forall j :: pos <= j < sp ==> !IsLineTerminator(s[j])
    requires forall q :: sp < q <= |s| ==> MatchAt(tail, true, s, q, open, []) == None
    requires MatchAt(tail, true, s, sp, open, []) == Some(caps)
    ensures MatchAt([Atom(AnyButNewline, Star)] + tail, true, s, pos, open, []) == Some(caps)
  {
    var k := Run(AnyButNewline, true, s, pos, |s| - pos);
    StarReaches(s, pos, sp);
    TryCountsDown(tail, true, s, pos, open, [], 0, k, sp - pos);
    assert ([Atom(AnyButNewline, Star)] + tail)[1..] == tail;
  }

  /** `.*` runs at least as far as the first line break. */
  lemma StarReaches(s: string, pos: nat, sp: nat)
    requires pos <= sp <= |s|
    requires forall j :: pos <= j < sp ==> !IsLineTerminator(s[j])
    ensures sp - pos <= Run(AnyButNewline, true, s, pos, |s| - pos)
  {
  }

  /** QueryTail fails after the last `?q=` or `&q=`. */
  lemma TailFailsAfter(s: string, sp: nat, open: nat)
    requires open <= sp < |s|
    requires LastQueryAt(s, sp)
    ensures forall q :: sp < q <= |s| ==> MatchAt(QueryTail, true, s, q, open, []) == None
  {
    forall q | sp < q <= |s|
      ensures MatchAt(QueryTail, true, s, q, open, []) == None
    {
      QueryTailFails(s, q, open, []);
    }
  }

  /** Lits(key) + QueryPair where the key is at n and the last separator
      before the pair at sp. */
  lemma {:induction false} QueryKeyTaken(key: string, s: string, n: nat, sp: nat, caps: seq<string>)
    requires n + |key| <= sp < |s| && s[n..n + |key|] == key
    requires forall j :: n + |key| <= j < sp ==> !IsLineTerminator(s[j])
    requires LastQueryAt(s, sp)
    requires MatchAt(QueryTail, true, s, sp, n, []) == Some(caps)
    ensures MatchAt(Lits(key) + QueryPair, true, s, n, n, []) == Some(caps)
  {
    StarGivesBack(s, n + |key|, sp, n, caps);
    KeyStar(key, s, n, caps);
  }

  /** The key at n, then QueryPair from the end of the key. */
  lemma KeyStar(key: string, s: string, n: nat, caps: seq<string>)
    requires n + |key| <= |s| && s[n..n + |key|] == key
    requires MatchAt([Atom(AnyButNewline, Star)] + QueryTail, true, s, n + |key|, n, []) == Some(caps)
    ensures MatchAt(Lits(key) + QueryPair, true, s, n, n, []) == Some(caps)
  {
    QueryPairItems();
    KeyThen(key, QueryPair, s, n, caps);
  }

  /** No line break. */
  predicate NoLineBreak(t: string)
  {
    forall j :: 0 <= j < |t| ==> !IsLineTerminator(t[j])
  }

  /** No '?' or '&'. */
  predicate NoSeparator(t: string)
  {
    forall j :: 0 <= j < |t| ==> t[j] != '?' && t[j] != '&'
  }

  /** "q=a,b" has neither. */
  lemma AssignmentChars(a: string, b: string)
    requires IsNumberText(a) && IsNumberText(b)
    ensures NoLineBreak("q=" + a + "," + b) && NoSeparator("q=" + a + "," + b)
  {
    NumberEnds(a);
    NumberEnds(b);
    var t := "q=" + a + "," + b;
    forall j | 0 <= j < |t|
      ensures !IsLineTerminator(t[j]) && t[j] != '?' && t[j] != '&'
    {
      if j < 2 {
      } else if j < 2 + |a| {
        assert t[j] == a[j - 2];
      } else if j == 2 + |a| {
      } else {
        assert t[j] == b[j - 3 - |a|];
      }
    }
  }

  /** No `?` or `&` in t is followed by "q=" in any case: t holds no
      further q parameter. */
  predicate NoOtherQuery(t: string)
  {
    forall j :: 0 <= j < |t| && (t[j] == '?' || t[j] == '&') ==> !KeyAt(t, j + 1, "q=")
  }

  /** Whether a text is at i depends only on what follows p <= i. */
  lemma KeyShift(s: string, p: nat, i: nat, t: string)
    requires p <= i && p <= |s|
    ensures KeyAt(s, i, t) <==> KeyAt(s[p..], i - p, t)
  {
    if i + |t| <= |s| {
      forall j | 0 <= j < |t|
        ensures Fold(s[p..][i - p + j]) == Fold(t[j]) <==> Fold(s[i + j]) == Fold(t[j])
      {
        assert s[p..][i - p + j] == s[i + j];
      }
    }
  }

  lemma JoinNoOtherQuery(x: string, y: string)
    requires NoSeparator(x) && NoOtherQuery(y)
    ensures NoOtherQuery(x + y)
  {
    var z := x + y;
    assert z[|x|..] == y;
    forall j | 0 <= j < |z| && (z[j] == '?' || z[j] == '&')
      ensures !KeyAt(z, j + 1, "q=")
    {
      assert j >= |x| && z[j] == y[j - |x|];
      KeyShift(z, |x|, j + 1, "q=");
    }
  }

  /** The link text pre + key + mid + sep + "q=" + a + "," + b + post. */
  function QueryText(pre: string, key: string, mid: string, sep: char, a: string, b: string, post: string): string
  {
    pre + key + mid + [sep] + "q=" + a + "," + b + post
  }

  /** The separator is '?' or '&'; nothing between the address and the
      separator breaks the line; no further `?q=` or `&q=` (in any case)
      follows the pair; the two numbers end where they should; and the
      address key does not occur (in any case) before the end of pre. */
  predicate IsQueryText(pre: string, key: string, mid: string, sep: char, a: string, b: string, post: string)
  {
    IsNumberText(a) && IsNumberText(b) && (sep == '?' || sep == '&')
    && NoLineBreak(mid) && NoOtherQuery(post)
    && (post == "" || (!IsDigit(post[0]) && post[0] != '.'))
    && forall i :: 0 <= i < |pre| ==> !KeyAt(QueryText(pre, key, mid, sep, a, b, post), i, key)
  }

  /** The pieces of w + x + y + [c] + z, by position. */
  lemma {:induction false} FourPieces(s: string, w: string, x: string, y: string, c: char, z: string)
    requires s == w + x + y + [c] + z
    ensures var i := |w| + |x| + |y|;
      && i < |s| && s[|w|..|w| + |x|] == x && s[|w| + |x|..i] == y && s[i] == c && s[i + 1..] == z
  {
    var i := |w| + |x| + |y|;
    assert s[|w|..|w| + |x|] == x;
    assert s[|w| + |x|..i] == y;
    assert s[i + 1..] == z;
  }

  /** Where the address and the separator of a query link lie. */
  lemma {:induction false} QueryHeadLayout(pre: string, key: string, mid: string, sep: char, a: string, b: string, post: string)
    ensures var s := QueryText(pre, key, mid, sep, a, b, post);
      var n := |pre|; var sp := n + |key| + |mid|;
      && sp < |s| && s[n..n + |key|] == key && s[sp] == sep
      && s[n + |key|..sp] == mid
      && s[sp + 1..] == ("q=" + a + "," + b) + post
  {
    var s := QueryText(pre, key, mid, sep, a, b, post);
    var t := ("q=" + a + "," + b) + post;
    assert s == pre + key + mid + [sep] + t;
    FourPieces(s, pre, key, mid, sep, t);
  }

  /** Where "q=a,b" lies in a query link. */
  lemma {:induction false} QueryPairLayout(pre: string, key: string, mid: string, sep: char, a: string, b: string, post: string)
    requires post == "" || (!IsDigit(post[0]) && post[0] != '.')
    ensures var s := QueryText(pre, key, mid, sep, a, b, post);
      var sp := |pre| + |key| + |mid|;
      var p := sp + 3; var pb := p + |a| + 1;
      && pb + |b| <= |s| && s[sp + 1..p] == "q=" && s[p..p + |a|] == a && s[p + |a|] == ',' && s[pb..pb + |b|] == b
      && (pb + |b| == |s| || (!IsDigit(s[pb + |b|]) && s[pb + |b|] != '.'))
  {
    var s := QueryText(pre, key, mid, sep, a, b, post);
    var v := pre + key + mid + [sep];
    var u := v + "q=";
    assert s == u + a + "," + b + post;
    PairLayout(u, a, b, post);
    assert s[|v|..|u|] == "q=";
  }

  lemma SliceNoLineBreak(s: string, p: nat, q: nat)
    requires p <= q <= |s| && NoLineBreak(s[p..q])
    ensures forall j :: p <= j < q ==> !IsLineTerminator(s[j])
  {
    assert forall j :: p <= j < q ==> s[j] == s[p..q][j - p];
  }

  lemma SuffixNoOtherQuery(s: string, p: nat)
    requires 0 < p <= |s| && NoOtherQuery(s[p..])
    ensures LastQueryAt(s, p - 1)
  {
    forall j | p - 1 < j < |s|
      ensures (s[j] != '?' && s[j] != '&') || !KeyAt(s, j + 1, "q=")
    {
      assert s[j] == s[p..][j - p];
      KeyShift(s, p, j + 1, "q=");
    }
  }

  /** Nothing between the address and the separator breaks the line, and
      no `?q=` or `&q=` follows the one before the pair. */
  lemma {:induction false} QueryChars(pre: string, key: string, mid: string, sep: char, a: string, b: string, post: string)
    requires IsQueryText(pre, key, mid, sep, a, b, post)
    ensures var s := QueryText(pre, key, mid, sep, a, b, post);
      var n := |pre|; var sp := n + |key| + |mid|;
      && (forall j :: n + |key| <= j < sp ==> !IsLineTerminator(s[j]))
      && LastQueryAt(s, sp)
  {
    var s := QueryText(pre, key, mid, sep, a, b, post);
    QueryHeadLayout(pre, key, mid, sep, a, b, post);
    SliceNoLineBreak(s, |pre| + |key|, |pre| + |key| + |mid|);
    AfterPairChars(s, |pre| + |key| + |mid|, a, b, post);
  }

  /** "q=a,b" followed by a text with no further `q` parameter leaves the
      `?` or `&` before it the last one. */
  lemma {:induction false} AfterPairChars(s: string, sp: nat, a: string, b: string, post: string)
    requires IsNumberText(a) && IsNumberText(b) && NoOtherQuery(post)
    requires sp < |s| && s[sp + 1..] == ("q=" + a + "," + b) + post
    ensures LastQueryAt(s, sp)
  {
    AssignmentChars(a, b);
    JoinNoOtherQuery("q=" + a + "," + b, post);
    SuffixNoOtherQuery(s, sp + 1);
  }

  /** A query pattern on a text where its key first occurs at n and the last
      separator, followed by "q=a,b", is at sp. */
  lemma {:induction false} QueryMatchesAt(p: Pattern, key: string, s: string, n: nat, sp: nat, a: string, b: string)
    requires p.ignoreCase && p.items == Lits(key) + QueryPair
    requires IsNumberText(a) && IsNumberText(b)
    requires forall i :: 0 <= i < n ==> !KeyAt(s, i, key)
    requires n + |key| <= sp < |s| && s[n..n + |key|] == key && (s[sp] == '?' || s[sp] == '&')
    requires forall j :: n + |key| <= j < sp ==> !IsLineTerminator(s[j])
    requires LastQueryAt(s, sp)
    requires var q := sp + 3; var pb := q + |a| + 1;
      pb + |b| <= |s| && s[sp + 1..q] == "q=" && s[q..q + |a|] == a && s[q + |a|] == ',' && s[pb..pb + |b|] == b
      && (pb + |b| == |s| || (!IsDigit(s[pb + |b|]) && s[pb + |b|] != '.'))
    ensures Exec(p, s) == Some([a, b])
  {
    AssignmentTaken(s, sp + 1, n, a, b);
    QueryTailTaken(s, sp, n, [a, b]);
    QueryKeyTaken(key, s, n, sp, [a, b]);
    FirstKeyMatch(p, key, QueryPair, s, n, [a, b]);
  }

  /** A query pattern captures the two numbers of the last `q=` parameter
      after the first occurrence of its address. */
  lemma {:induction false} QueryMatches(p: Pattern, pre: string, key: string, mid: string, sep: char, a: string, b: string, post: string)
    requires p.ignoreCase && p.items == Lits(key) + QueryPair
    requires IsQueryText(pre, key, mid, sep, a, b, post)
    ensures Exec(p, QueryText(pre, key, mid, sep, a, b, post)) == Some([a, b])
  {
    var s := QueryText(pre, key, mid, sep, a, b, post);
    QueryHeadLayout(pre, key, mid, sep, a, b, post);
    QueryPairLayout(pre, key, mid, sep, a, b, post);
    QueryChars(pre, key, mid, sep, a, b, post);
    QueryMatchesAt(p, key, s, |pre|, |pre| + |key| + |mid|, a, b);
  }

  /** parseLocationLink reads a query link of the i-th pattern as the two
      numbers whenever they are in range and the patterns tried before it
      gave nothing. */
  lemma {:induction false} QueryLink(link: string, i: nat, key: string,
                                     pre: string, mid: string, sep: char, a: string, b: string, post: string)
    requires i < |LinkPatterns| && LinkPatterns[i].ignoreCase && LinkPatterns[i].items == Lits(key) + QueryPair
    requires Trim(link) == QueryText(pre, key, mid, sep, a, b, post) && IsQueryText(pre, key, mid, sep, a, b, post)
    requires InRange(TokenValue(a).value, TokenValue(b).value)
    requires forall j :: 0 <= j < i ==> TryPattern(LinkPatterns[j], Trim(link), true).None?
    ensures ParseLocationLink(link) == Some(Coord(TokenValue(a).value, TokenValue(b).value))
  {
    QueryMatches(LinkPatterns[i], pre, key, mid, sep, a, b, post);
    PairValidated(LinkPatterns[i], Trim(link), a, b);
    LinkPatternWins(link, i, Coord(TokenValue(a).value, TokenValue(b).value));
  }

  const GoogleKey := "maps.google.com/"
  const AppleKey := "maps.apple.com/"
  const WazeKey := "waze.com/"

  lemma QueryPatternsItems()
    ensures GoogleQuery.ignoreCase && GoogleQuery.items == Lits(GoogleKey) + QueryPair
    ensures AppleQuery.ignoreCase && AppleQuery.items == Lits(AppleKey) + QueryPair
    ensures WazeQuery.ignoreCase && WazeQuery.items == Lits(WazeKey) + QueryPair
  {
  }

  /** `maps.google.com/...?q=lat,lng` (or `&q=`), the first pattern tried. */
  lemma GoogleQueryLink(link: string, pre: string, mid: string, sep: char, a: string, b: string, post: string)
    requires Trim(link) == QueryText(pre, GoogleKey, mid, sep, a, b, post)
    requires IsQueryText(pre, GoogleKey, mid, sep, a, b, post)
    requires InRange(TokenValue(a).value, TokenValue(b).value)
    ensures ParseLocationLink(link) == Some(Coord(TokenValue(a).value, TokenValue(b).value))
  {
    LinkPatternsAre();
    QueryPatternsItems();
    QueryLink(link, 0, GoogleKey, pre, mid, sep, a, b, post);
  }

  /** `maps.apple.com/...?q=lat,lng` (or `&q=`), when the four patterns
      tried before it gave nothing. */
  lemma AppleQueryLink(link: string, pre: string, mid: string, sep: char, a: string, b: string, post: string)
    requires Trim(link) == QueryText(pre, AppleKey, mid, sep, a, b, post)
    requires IsQueryText(pre, AppleKey, mid, sep, a, b, post)
    requires InRange(TokenValue(a).value, TokenValue(b).value)
    requires forall j :: 0 <= j < 4 ==> TryPattern(LinkPatterns[j], Trim(link), true).None?
    ensures ParseLocationLink(link) == Some(Coord(TokenValue(a).value, TokenValue(b).value))
  {
    LinkPatternsAre();
    QueryPatternsItems();
    QueryLink(link, 4, AppleKey, pre, mid, sep, a, b, post);
  }

  /** `waze.com/...?q=lat,lng` (or `&q=`), the last pattern, when the seven
      tried before it gave nothing. */
  lemma WazeQueryLink(link: string, pre: string, mid: string, sep: char, a: string, b: string, post: string)
    requires Trim(link) == QueryText(pre, WazeKey, mid, sep, a, b, post)
    requires IsQueryText(pre, WazeKey, mid, sep, a, b, post)
    requires InRange(TokenValue(a).value, TokenValue(b).value)
    requires forall j :: 0 <= j < 7 ==> TryPattern(LinkPatterns[j], Trim(link), true).None?
    ensures ParseLocationLink(link) == Some(Coord(TokenValue(a).value, TokenValue(b).value))
  {
    LinkPatternsAre();
    QueryPatternsItems();
    QueryLink(link, 7, WazeKey, pre, mid, sep, a, b, post);
  }

  const LabelKey := "Location:"

  /** The four patterns tried before the Apple one give nothing in a text
      that holds neither `maps.google.com/` nor `google.com/maps/@`. */
  lemma {:induction false} GooglePatternsFail(s: string)
    requires forall i :: 0 <= i < |s| ==> !KeyAt(s, i, GoogleKey) && !KeyAt(s, i, AtKey)
    ensures forall j :: 0 <= j < 4 ==> TryPattern(LinkPatterns[j], s, true).None?
  {
    LinkPatternsAre();
    QueryPatternsItems();
    KeyAbsent(GoogleQuery, GoogleKey, QueryPair, s);
    GoogleAtItems();
    KeyAbsent(GoogleAt, AtKey, PairItems, s);
    ShortLinkNeverYields(s);
    assert LinkPatterns[3] == GoogleShare;
    assert GoogleShare.items == Lits(GoogleKey) + (Lits("?q=") + PairItems);
    KeyAbsent(GoogleShare, GoogleKey, Lits("?q=") + PairItems, s);
  }

  /** `maps.apple.com/...?q=lat,lng` in a link that holds neither
      `maps.google.com/` nor `google.com/maps/@`, in any case. */
  lemma AppleOnlyLink(link: string, pre: string, mid: string, sep: char, a: string, b: string, post: string)
    requires Trim(link) == QueryText(pre, AppleKey, mid, sep, a, b, post)
    requires IsQueryText(pre, AppleKey, mid, sep, a, b, post)
    requires InRange(TokenValue(a).value, TokenValue(b).value)
    requires forall i :: 0 <= i < |Trim(link)| ==> !KeyAt(Trim(link), i, GoogleKey) && !KeyAt(Trim(link), i, AtKey)
    ensures ParseLocationLink(link) == Some(Coord(TokenValue(a).value, TokenValue(b).value))
  {
    GooglePatternsFail(Trim(link));
    AppleQueryLink(link, pre, mid, sep, a, b, post);
  }

  /** The seven patterns tried before the Waze one give nothing in a Waze
      query text that holds none of the other addresses and no
      `Location:`: the whole-text pair stops at the w of `waze.com/`. */
  lemma {:induction false} EarlierPatternsFail(pre: string, mid: string, sep: char, a: string, b: string, post: string)
    requires var s := QueryText(pre, WazeKey, mid, sep, a, b, post);
      forall i :: 0 <= i < |s| ==>
        !KeyAt(s, i, GoogleKey) && !KeyAt(s, i, AtKey) && !KeyAt(s, i, AppleKey) && !KeyAt(s, i, LabelKey)
    ensures var s := QueryText(pre, WazeKey, mid, sep, a, b, post);
      forall j :: 0 <= j < 7 ==> TryPattern(LinkPatterns[j], s, true).None?
  {
    var s := QueryText(pre, WazeKey, mid, sep, a, b, post);
    GooglePatternsFail(s);
    LaterKeysFail(s);
    WazeNotPair(pre, mid, sep, a, b, post);
    assert LinkPatterns[4] == AppleQuery && LinkPatterns[5] == CommaPair && LinkPatterns[6] == LabelledLink;
  }

  /** Neither the Apple nor the `Location:` pattern finds anything where
      its key is not. */
  lemma LaterKeysFail(s: string)
    requires forall i :: 0 <= i < |s| ==> !KeyAt(s, i, AppleKey) && !KeyAt(s, i, LabelKey)
    ensures Exec(AppleQuery, s) == None && Exec(LabelledLink, s) == None
  {
    QueryPatternsItems();
    KeyAbsent(AppleQuery, AppleKey, QueryPair, s);
    var rest := [Atom(Space, Star)] + Lits("http") + [Atom(Lit('s'), Opt)] + Lits("://") + QueryPair;
    assert LabelledLink.items == Lits(LabelKey) + rest;
    KeyAbsent(LabelledLink, LabelKey, rest, s);
  }

  /** A Waze query text is not a whole-text pair: it holds a letter. */
  lemma WazeNotPair(pre: string, mid: string, sep: char, a: string, b: string, post: string)
    ensures Exec(CommaPair, QueryText(pre, WazeKey, mid, sep, a, b, post)) == None
  {
    var s := QueryText(pre, WazeKey, mid, sep, a, b, post);
    assert s == pre + (WazeKey + (mid + [sep] + "q=" + a + "," + b + post));
    assert s[|pre|] == 'w';
    DegreeForms.CommaPairForeign(s[|pre|]);
    ExecForeign(CommaPair, s, |pre|);
  }

  /** `waze.com/...?q=lat,lng` in a link that holds, in any case, none of
      `maps.google.com/`, `google.com/maps/@`, `maps.apple.com/` and
      `Location:`. */
  lemma WazeOnlyLink(link: string, pre: string, mid: string, sep: char, a: string, b: string, post: string)
    requires Trim(link) == QueryText(pre, WazeKey, mid, sep, a, b, post)
    requires IsQueryText(pre, WazeKey, mid, sep, a, b, post)
    requires InRange(TokenValue(a).value, TokenValue(b).value)
    requires forall i :: 0 <= i < |Trim(link)| ==>
      && !KeyAt(Trim(link), i, GoogleKey) && !KeyAt(Trim(link), i, AtKey)
      && !KeyAt(Trim(link), i, AppleKey) && !KeyAt(Trim(link), i, LabelKey)
    ensures ParseLocationLink(link) == Some(Coord(TokenValue(a).value, TokenValue(b).value))
  {
    EarlierPatternsFail(pre, mid, sep, a, b, post);
    WazeQueryLink(link, pre, mid, sep, a, b, post);
  }

  /** `google.com/maps/@lat,lng` in a link that does not hold
      `maps.google.com/` in any case, so that the first pattern finds
      nothing. */
  lemma GoogleAtOnlyLink(link: string, pre: string, a: string, b: string, post: string)
    requires Trim(link) == AtText(pre, a, b, post) && IsAtText(pre, a, b, post)
    requires InRange(TokenValue(a).value, TokenValue(b).value)
    requires forall i :: 0 <= i < |Trim(link)| ==> !KeyAt(Trim(link), i, GoogleKey)
    ensures ParseLocationLink(link) == Some(Coord(TokenValue(a).value, TokenValue(b).value))
  {
    LinkPatternsAre();
    QueryPatternsItems();
    KeyAbsent(GoogleQuery, GoogleKey, QueryPair, Trim(link));
    GoogleAtLink(link, pre, a, b, post);
  }
}
