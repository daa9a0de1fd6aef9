/** The fragment of JavaScript regular expressions (ECMA-262, section 22.2)
    that the coordinate patterns of src/components/LocationInput.tsx use:
    single-character atoms (a literal, \d, \s, `.`, a bracket class) under a
    greedy `?`, `*` or `+`, capture groups that are neither nested nor
    quantified, and the anchors `^` and `$`, with an optional `i` flag.
    Matching follows the standard's backtracking order: a greedy quantifier
    first takes the longest run and gives characters back one at a time. */
module Patterns {
  import opened Types

  /** WhiteSpace and LineTerminator of ECMA-262: what `\s` matches and what
      String.prototype.trim removes. */
  predicate IsSpace(c: char)
  {
    c == '\t' || c == '\U{000B}' || c == '\U{000C}' || c == ' ' || c == '\U{00A0}'
    || c == '\U{FEFF}' || c == '\U{1680}' || ('\U{2000}' <= c <= '\U{200A}')
    || c == '\U{202F}' || c == '\U{205F}' || c == '\U{3000}' || IsLineTerminator(c)
  }

  predicate IsLineTerminator(c: char)
  {
    c == '\n' || c == '\r' || c == '\U{2028}' || c == '\U{2029}'
  }

  /** Canonicalize under the `i` flag, restricted to what these patterns can
      observe: ASCII lower-case letters map to upper case. (No character
      outside ASCII canonicalizes into ASCII, and every other pattern
      character is its own canonical form.) */
  function Fold(c: char): char
  {
    if 'a' <= c <= 'z' then (c as int - 32) as char else c
  }

  datatype Class =
    | Lit(c: char)          // a literal or escaped character
    | Digit                 // \d
    | Space                 // \s
    | AnyButNewline         // .
    | OneOf(cs: seq<char>)  // [...]

  datatype Quant = One | Opt | Star | Plus

  datatype Item =
    | Atom(cls: Class, q: Quant)
    | Open                  // (
    | Close                 // )
    | InputStart            // ^
    | InputEnd              // $

  datatype Pattern = Pattern(items: seq<Item>, ignoreCase: bool)

  predicate ClassHas(cls: Class, ic: bool, c: char)
  {
    match cls
    case Lit(p) => if ic then Fold(p) == Fold(c) else p == c
    case Digit => '0' <= c <= '9'
    case Space => IsSpace(c)
    case AnyButNewline => !IsLineTerminator(c)
    case OneOf(cs) => if ic then exists p :: p in cs && Fold(p) == Fold(c) else c in cs
  }

  function MinCount(q: Quant): nat
  {
    if q == One || q == Plus then 1 else 0
  }

  function MaxCount(q: Quant, s: string, pos: nat): nat
    requires pos <= |s|
  {
    if q == One || q == Opt then 1 else |s| - pos
  }

  /** How many characters from pos on are in the class, at most cap. */
  function Run(cls: Class, ic: bool, s: string, pos: nat, cap: nat): (k: nat)
    requires pos <= |s|
    ensures pos + k <= |s| && k <= cap
    ensures forall j :: pos <= j < pos + k ==> ClassHas(cls, ic, s[j])
    ensures k == cap || pos + k == |s| || !ClassHas(cls, ic, s[pos + k])
    decreases cap
  {
    if cap > 0 && pos < |s| && ClassHas(cls, ic, s[pos]) then 1 + Run(cls, ic, s, pos + 1, cap - 1)
    else 0
  }

  /** The captures of the first way (in backtracking order) the items match
      s from pos; `open` is where the group being read started and `caps`
      the texts of the groups already closed. */
  function MatchAt(items: seq<Item>, ic: bool, s: string, pos: nat, open: nat, caps: seq<string>): Option<seq<string>>
    requires open <= pos <= |s|
    decreases |items|, 1, 0
  {
    if items == [] then Some(caps)
    else
      match items[0]
      case Atom(cls, q) =>
        var run := Run(cls, ic, s, pos, MaxCount(q, s, pos));
        if run < MinCount(q) then None
        else TryCounts(items[1..], ic, s, pos, open, caps, MinCount(q), run)
      case Open => MatchAt(items[1..], ic, s, pos, pos, caps)
      case Close => MatchAt(items[1..], ic, s, pos, open, caps + [s[open..pos]])
      case InputStart => if pos == 0 then MatchAt(items[1..], ic, s, pos, open, caps) else None
      case InputEnd => if pos == |s| then MatchAt(items[1..], ic, s, pos, open, caps) else None
  }

  /** A greedy quantifier over a run: k characters first, then one fewer,
      down to lo. */
  function TryCounts(rest: seq<Item>, ic: bool, s: string, pos: nat, open: nat, caps: seq<string>, lo: nat, k: nat): Option<seq<string>>
    requires open <= pos && lo <= k && pos + k <= |s|
    decreases |rest| + 1, 0, k - lo
  {
    match MatchAt(rest, ic, s, pos + k, open, caps)
    case Some(c) => Some(c)
    case None => if k == lo then None else TryCounts(rest, ic, s, pos, open, caps, lo, k - 1)
  }

  /** The captures of the match starting at i or, failing that, at a later
      position. */
  function SearchFrom(p: Pattern, s: string, i: nat): Option<seq<string>>
    requires i <= |s|
    decreases |s| - i
  {
    match MatchAt(p.items, p.ignoreCase, s, i, i, [])
    case Some(c) => Some(c)
    case None => if i == |s| then None else SearchFrom(p, s, i + 1)
  }

  /** s.match(p) for a pattern without the `g` flag: the captured groups
      (group 1 first) of the leftmost match, or None for `null`. */
  function Exec(p: Pattern, s: string): Option<seq<string>>
  {
    SearchFrom(p, s, 0)
  }

  /** The number of groups the items close. */
  function CloseCount(items: seq<Item>): nat
  {
    if items == [] then 0 else (if items[0] == Close then 1 else 0) + CloseCount(items[1..])
  }

  /** A match captures exactly one text per group. */
  lemma {:induction false} MatchAtCaptures(items: seq<Item>, ic: bool, s: string, pos: nat, open: nat, caps: seq<string>)
    requires open <= pos <= |s|
    ensures var r := MatchAt(items, ic, s, pos, open, caps);
      r.Some? ==> |r.value| == |caps| + CloseCount(items)
    decreases |items|, 1, 0
  {
    if items != [] {
      match items[0]
      case Atom(cls, q) =>
        var run := Run(cls, ic, s, pos, MaxCount(q, s, pos));
        if run >= MinCount(q) {
          TryCountsCaptures(items[1..], ic, s, pos, open, caps, MinCount(q), run);
        }
      case Open => MatchAtCaptures(items[1..], ic, s, pos, pos, caps);
      case Close => MatchAtCaptures(items[1..], ic, s, pos, open, caps + [s[open..pos]]);
      case InputStart =>
        if pos == 0 {
          MatchAtCaptures(items[1..], ic, s, pos, open, caps);
        }
      case InputEnd =>
        if pos == |s| {
          MatchAtCaptures(items[1..], ic, s, pos, open, caps);
        }
    }
  }

  lemma {:induction false} TryCountsCaptures(rest: seq<Item>, ic: bool, s: string, pos: nat, open: nat, caps: seq<string>, lo: nat, k: nat)
    requires open <= pos && lo <= k && pos + k <= |s|
    ensures var r := TryCounts(rest, ic, s, pos, open, caps, lo, k);
      r.Some? ==> |r.value| == |caps| + CloseCount(rest)
    decreases |rest| + 1, 0, k - lo
  {
    MatchAtCaptures(rest, ic, s, pos + k, open, caps);
    if k > lo {
      TryCountsCaptures(rest, ic, s, pos, open, caps, lo, k - 1);
    }
  }

  /** A pattern whose groups number n yields n captures whenever it matches. */
  lemma ExecCaptures(p: Pattern, s: string)
    ensures Exec(p, s).Some? ==> |Exec(p, s).value| == CloseCount(p.items)
  {
    SearchCaptures(p, s, 0);
  }

  lemma {:induction false} SearchCaptures(p: Pattern, s: string, i: nat)
    requires i <= |s|
    ensures SearchFrom(p, s, i).Some? ==> |SearchFrom(p, s, i).value| == CloseCount(p.items)
    decreases |s| - i
  {
    MatchAtCaptures(p.items, p.ignoreCase, s, i, i, []);
    if i < |s| {
      SearchCaptures(p, s, i + 1);
    }
  }

  /** No character of s from pos on is in the class. */
  predicate Absent(cls: Class, ic: bool, s: string, pos: nat)
  {
    forall j :: pos <= j < |s| ==> !ClassHas(cls, ic, s[j])
  }

  /** Items that hold an atom which must match at least once fail wherever
      no character of its class is left. */
  lemma {:induction false} MatchAtNeeds(items: seq<Item>, ic: bool, s: string, pos: nat, open: nat, caps: seq<string>, i: nat)
    requires open <= pos <= |s|
    requires i < |items| && items[i].Atom? && MinCount(items[i].q) == 1
    requires Absent(items[i].cls, ic, s, pos)
    ensures MatchAt(items, ic, s, pos, open, caps) == None
    decreases |items|, 1, 0
  {
    if i > 0 {
      match items[0]
      case Atom(cls, q) =>
        var run := Run(cls, ic, s, pos, MaxCount(q, s, pos));
        if run >= MinCount(q) {
          TryCountsNeeds(items[1..], ic, s, pos, open, caps, MinCount(q), run, i - 1);
        }
      case Open => MatchAtNeeds(items[1..], ic, s, pos, pos, caps, i - 1);
      case Close => MatchAtNeeds(items[1..], ic, s, pos, open, caps + [s[open..pos]], i - 1);
      case InputStart =>
        if pos == 0 {
          MatchAtNeeds(items[1..], ic, s, pos, open, caps, i - 1);
        }
      case InputEnd =>
        if pos == |s| {
          MatchAtNeeds(items[1..], ic, s, pos, open, caps, i - 1);
        }
    }
  }

  lemma {:induction false} TryCountsNeeds(rest: seq<Item>, ic: bool, s: string, pos: nat, open: nat, caps: seq<string>, lo: nat, k: nat, i: nat)
    requires open <= pos && lo <= k && pos + k <= |s|
    requires i < |rest| && rest[i].Atom? && MinCount(rest[i].q) == 1
    requires Absent(rest[i].cls, ic, s, pos)
    ensures TryCounts(rest, ic, s, pos, open, caps, lo, k) == None
    decreases |rest| + 1, 0, k - lo
  {
    MatchAtNeeds(rest, ic, s, pos + k, open, caps, i);
    if k > lo {
      TryCountsNeeds(rest, ic, s, pos, open, caps, lo, k - 1, i);
    }
  }

  /** A pattern that needs a character class none of s holds finds no match. */
  lemma ExecNeeds(p: Pattern, s: string, i: nat)
    requires i < |p.items| && p.items[i].Atom? && MinCount(p.items[i].q) == 1
    requires Absent(p.items[i].cls, p.ignoreCase, s, 0)
    ensures Exec(p, s) == None
  {
    SearchNeeds(p, s, 0, i);
  }

  lemma {:induction false} SearchNeeds(p: Pattern, s: string, from: nat, i: nat)
    requires from <= |s|
    requires i < |p.items| && p.items[i].Atom? && MinCount(p.items[i].q) == 1
    requires Absent(p.items[i].cls, p.ignoreCase, s, 0)
    ensures SearchFrom(p, s, from) == None
    decreases |s| - from
  {
    MatchAtNeeds(p.items, p.ignoreCase, s, from, from, [], i);
    if from < |s| {
      SearchNeeds(p, s, from + 1, i);
    }
  }

  /** A pattern anchored with `^` can only match from the start. */
  lemma ExecAnchored(p: Pattern, s: string)
    requires |p.items| > 0 && p.items[0] == InputStart
    ensures Exec(p, s) == MatchAt(p.items, p.ignoreCase, s, 0, 0, [])
  {
    if 0 < |s| {
      SearchAnchored(p, s, 1);
    }
  }

  lemma {:induction false} SearchAnchored(p: Pattern, s: string, from: nat)
    requires |p.items| > 0 && p.items[0] == InputStart
    requires 0 < from <= |s|
    ensures SearchFrom(p, s, from) == None
    decreases |s| - from
  {
    if from < |s| {
      SearchAnchored(p, s, from + 1);
    }
  }

  /** The run of an atom is the longest stretch of its class, up to the cap. */
  lemma RunIs(cls: Class, ic: bool, s: string, pos: nat, cap: nat, r: nat)
    requires pos + r <= |s| && r <= cap
    requires forall j :: pos <= j < pos + r ==> ClassHas(cls, ic, s[j])
    requires r == cap || pos + r == |s| || !ClassHas(cls, ic, s[pos + r])
    ensures Run(cls, ic, s, pos, cap) == r
  {
  }

  /** An atom whose longest run lets the rest match takes that run. */
  lemma GreedyStep(items: seq<Item>, ic: bool, s: string, pos: nat, open: nat, caps: seq<string>, r: nat)
    requires open <= pos && pos + r <= |s|
    requires |items| > 0 && items[0].Atom?
    requires MinCount(items[0].q) <= r <= MaxCount(items[0].q, s, pos)
    requires forall j :: pos <= j < pos + r ==> ClassHas(items[0].cls, ic, s[j])
    requires r == MaxCount(items[0].q, s, pos) || pos + r == |s| || !ClassHas(items[0].cls, ic, s[pos + r])
    requires MatchAt(items[1..], ic, s, pos + r, open, caps).Some?
    ensures MatchAt(items, ic, s, pos, open, caps) == MatchAt(items[1..], ic, s, pos + r, open, caps)
  {
    RunIs(items[0].cls, ic, s, pos, MaxCount(items[0].q, s, pos), r);
  }
  /** No atom of the items accepts c. */
  predicate Foreign(items: seq<Item>, ic: bool, c: char)
  {
    forall i :: 0 <= i < |items| && items[i].Atom? ==> !ClassHas(items[i].cls, ic, c)
  }

  /** Items that must reach `$` fail from pos when a character at or after
      pos is accepted by none of their atoms: nothing can step over it. */
  lemma {:induction false} MatchAtForeign(items: seq<Item>, ic: bool, s: string, pos: nat, open: nat, caps: seq<string>, k: nat)
    requires open <= pos <= k < |s|
    requires InputEnd in items && Foreign(items, ic, s[k])
    ensures MatchAt(items, ic, s, pos, open, caps) == None
    decreases |items|, 1, 0
  {
    assert items[0] != InputEnd ==> InputEnd in items[1..];
    assert Foreign(items[1..], ic, s[k]) by {
      forall i | 0 <= i < |items| - 1 && items[1..][i].Atom?
        ensures !ClassHas(items[1..][i].cls, ic, s[k])
      {
        assert items[1..][i] == items[i + 1];
      }
    }
    match items[0]
    case Atom(cls, q) =>
      var run := Run(cls, ic, s, pos, MaxCount(q, s, pos));
      if run >= MinCount(q) {
        assert !ClassHas(cls, ic, s[k]) by {
          assert items[0].Atom? && items[0].cls == cls;
        }
        assert pos + run <= k;
        TryCountsForeign(items[1..], ic, s, pos, open, caps, MinCount(q), run, k);
      }
    case Open => MatchAtForeign(items[1..], ic, s, pos, pos, caps, k);
    case Close => MatchAtForeign(items[1..], ic, s, pos, open, caps + [s[open..pos]], k);
    case InputStart =>
      if pos == 0 {
        MatchAtForeign(items[1..], ic, s, pos, open, caps, k);
      }
    case InputEnd =>
  }

  lemma {:induction false} TryCountsForeign(rest: seq<Item>, ic: bool, s: string, pos: nat, open: nat, caps: seq<string>, lo: nat, k: nat, at: nat)
    requires open <= pos && lo <= k && pos + k <= at < |s|
    requires InputEnd in rest && Foreign(rest, ic, s[at])
    ensures TryCounts(rest, ic, s, pos, open, caps, lo, k) == None
    decreases |rest| + 1, 0, k - lo
  {
    MatchAtForeign(rest, ic, s, pos + k, open, caps, at);
    if k > lo {
      TryCountsForeign(rest, ic, s, pos, open, caps, lo, k - 1, at);
    }
  }

  /** A pattern anchored at both ends finds no match in a text holding a
      character that none of its atoms accepts. */
  lemma ExecForeign(p: Pattern, s: string, k: nat)
    requires |p.items| > 0 && p.items[0] == InputStart && InputEnd in p.items
    requires k < |s| && Foreign(p.items, p.ignoreCase, s[k])
    ensures Exec(p, s) == None
  {
    ExecAnchored(p, s);
    MatchAtForeign(p.items, p.ignoreCase, s, 0, 0, [], k);
  }

  /** Items whose i-th atom must match at least once fail from pos when a
      character at k, at or after pos, is accepted by no atom before it and
      the i-th atom's class holds no character from pos up to k: the items
      before it cannot step over k, and it finds nothing short of k. */
  lemma {:induction false} MatchAtBlocked(items: seq<Item>, ic: bool, s: string, pos: nat, open: nat, caps: seq<string>, i: nat, k: nat)
    requires open <= pos <= k < |s|
    requires i < |items| && items[i].Atom? && MinCount(items[i].q) == 1
    requires Foreign(items[..i], ic, s[k])
    requires forall j :: pos <= j <= k ==> !ClassHas(items[i].cls, ic, s[j])
    ensures MatchAt(items, ic, s, pos, open, caps) == None
    decreases |items|, 1, 0
  {
    if i == 0 {
      assert !ClassHas(items[0].cls, ic, s[pos]);
    } else {
      assert items[1..][i - 1] == items[i];
      var before := items[1..][..i - 1];
      assert Foreign(before, ic, s[k]) by {
        forall j | 0 <= j < |before| && before[j].Atom?
          ensures !ClassHas(before[j].cls, ic, s[k])
        {
          assert before[j] == items[..i][j + 1];
        }
      }
      match items[0]
      case Atom(cls, q) =>
        var run := Run(cls, ic, s, pos, MaxCount(q, s, pos));
        if run >= MinCount(q) {
          assert !ClassHas(cls, ic, s[k]) by {
            assert items[..i][0] == items[0];
          }
          assert pos + run <= k;
          TryCountsBlocked(items[1..], ic, s, pos, open, caps, MinCount(q), run, i - 1, k);
        }
      case Open => MatchAtBlocked(items[1..], ic, s, pos, pos, caps, i - 1, k);
      case Close => MatchAtBlocked(items[1..], ic, s, pos, open, caps + [s[open..pos]], i - 1, k);
      case InputStart =>
        if pos == 0 {
          MatchAtBlocked(items[1..], ic, s, pos, open, caps, i - 1, k);
        }
      case InputEnd =>
    }
  }

  lemma {:induction false} TryCountsBlocked(rest: seq<Item>, ic: bool, s: string, pos: nat, open: nat, caps: seq<string>, lo: nat, m: nat, i: nat, k: nat)
    requires open <= pos && lo <= m && pos + m <= k < |s|
    requires i < |rest| && rest[i].Atom? && MinCount(rest[i].q) == 1
    requires Foreign(rest[..i], ic, s[k])
    requires forall j :: pos <= j <= k ==> !ClassHas(rest[i].cls, ic, s[j])
    ensures TryCounts(rest, ic, s, pos, open, caps, lo, m) == None
    decreases |rest| + 1, 0, m - lo
  {
    MatchAtBlocked(rest, ic, s, pos + m, open, caps, i, k);
    if m > lo {
      TryCountsBlocked(rest, ic, s, pos, open, caps, lo, m - 1, i, k);
    }
  }

  /** So a pattern anchored at the start whose i-th atom must match fails
      on a text with a character at k that no atom before it accepts, when
      no character of the i-th atom's class comes at or before k. */
  lemma ExecBlocked(p: Pattern, s: string, i: nat, k: nat)
    requires |p.items| > 0 && p.items[0] == InputStart
    requires i < |p.items| && p.items[i].Atom? && MinCount(p.items[i].q) == 1
    requires k < |s| && Foreign(p.items[..i], p.ignoreCase, s[k])
    requires forall j :: 0 <= j <= k ==> !ClassHas(p.items[i].cls, p.ignoreCase, s[j])
    ensures Exec(p, s) == None
  {
    ExecAnchored(p, s);
    MatchAtBlocked(p.items, p.ignoreCase, s, 0, 0, [], i, k);
  }

  /** A search that finds no match at the positions from i up to k goes on
      from k. */
  lemma {:induction false} SearchSkip(p: Pattern, s: string, i: nat, k: nat)
    requires i <= k <= |s|
    requires forall j :: i <= j < k ==> MatchAt(p.items, p.ignoreCase, s, j, j, []) == None
    ensures SearchFrom(p, s, i) == SearchFrom(p, s, k)
    decreases k - i
  {
    if i < k {
      SearchSkip(p, s, i + 1, k);
    }
  }

  /** A greedy quantifier gives back characters until the rest matches: when
      every longer count fails, the count m decides. */
  lemma {:induction false} TryCountsDown(rest: seq<Item>, ic: bool, s: string, pos: nat, open: nat, caps: seq<string>, lo: nat, k: nat, m: nat)
    requires open <= pos && lo <= m <= k && pos + k <= |s|
    requires forall q :: pos + m < q <= pos + k ==> MatchAt(rest, ic, s, q, open, caps) == None
    ensures TryCounts(rest, ic, s, pos, open, caps, lo, k) == TryCounts(rest, ic, s, pos, open, caps, lo, m)
    decreases k - m
  {
    if k > m {
      TryCountsDown(rest, ic, s, pos, open, caps, lo, k - 1, m);
    }
  }

  /** An optional single character is taken when it is there. */
  lemma OptTaken(cls: Class, rest: seq<Item>, ic: bool, s: string, pos: nat, open: nat, caps: seq<string>, n: nat)
    requires n <= 1 && open <= pos && pos + n <= |s|
    requires n == 1 ==> ClassHas(cls, ic, s[pos])
    requires n == 0 ==> pos == |s| || !ClassHas(cls, ic, s[pos])
    requires MatchAt(rest, ic, s, pos + n, open, caps).Some?
    ensures MatchAt([Atom(cls, Opt)] + rest, ic, s, pos, open, caps) == MatchAt(rest, ic, s, pos + n, open, caps)
  {
    assert ([Atom(cls, Opt)] + rest)[1..] == rest;
    GreedyStep([Atom(cls, Opt)] + rest, ic, s, pos, open, caps, n);
  }
}
