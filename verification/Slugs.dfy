/**
 Workspace slugs: turning a name into a slug, and finding one that no workspace has yet.
 Lower-casing is a parameter; all that is used of it is that it leaves slugs alone.
 */
module Slugs {
  predicate IsAlnum(c: char) {
    'a' <= c <= 'z' || '0' <= c <= '9'
  }

  // ---------------------------------------------------------------- slugify, step by step

  /** The white space that `trim` removes. */
  predicate IsSpace(c: char) {
    c in {' ', '\t', '\n', '\r', '\U{000B}', '\U{000C}', '\U{00A0}', '\U{FEFF}', '\U{1680}', '\U{2028}', '\U{2029}',
          '\U{202F}', '\U{205F}', '\U{3000}'}
    || '\U{2000}' <= c <= '\U{200A}'
  }

  function TrimStart(s: string): string {
    if s != "" && IsSpace(s[0]) then TrimStart(s[1..]) else s
  }

  function TrimEnd(s: string): string {
    if s != "" && IsSpace(s[|s| - 1]) then TrimEnd(s[..|s| - 1]) else s
  }

  function Trim(s: string): string {
    TrimEnd(TrimStart(s))
  }

  function SkipOthers(s: string): (r: string)
    ensures |r| <= |s|
    ensures r == "" || IsAlnum(r[0])
    ensures s != "" && !IsAlnum(s[0]) ==> |r| < |s|
  {
    if s != "" && !IsAlnum(s[0]) then SkipOthers(s[1..]) else s
  }

  /** Every run of characters other than a-z and 0-9 becomes one hyphen. */
  function Collapse(s: string): string
    decreases |s|
  {
    if s == "" then ""
    else if IsAlnum(s[0]) then [s[0]] + Collapse(s[1..])
    else "-" + Collapse(SkipOthers(s))
  }

  function StripStart(s: string): string {
    if s != "" && s[0] == '-' then StripStart(s[1..]) else s
  }

  function StripEnd(s: string): string {
    if s != "" && s[|s| - 1] == '-' then StripEnd(s[..|s| - 1]) else s
  }

  const FALLBACK: string := "workspace"

  function Slugify(value: string, lower: string -> string): string {
    var slug := StripEnd(StripStart(Collapse(Trim(lower(value)))));
    if slug == "" then FALLBACK else slug
  }

  // ---------------------------------------------------------------- words

  function FirstWord(s: string): (w: string)
    ensures |w| <= |s| && w == s[..|w|]
    ensures s != "" && IsAlnum(s[0]) ==> w != ""
    ensures IsWordOrEmpty(w)
  {
    if s != "" && IsAlnum(s[0]) then [s[0]] + FirstWord(s[1..]) else ""
  }

  predicate IsWordOrEmpty(w: string) {
    forall i :: 0 <= i < |w| ==> IsAlnum(w[i])
  }

  predicate IsWord(w: string) {
    w != "" && IsWordOrEmpty(w)
  }

  /** The maximal runs of a-z and 0-9. */
  function Words(s: string): (ws: seq<string>)
    ensures forall i :: 0 <= i < |ws| ==> IsWord(ws[i])
    decreases |s|
  {
    if s == "" then []
    else if !IsAlnum(s[0]) then Words(s[1..])
    else
      var w := FirstWord(s);
      [w] + Words(s[|w|..])
  }

  function Join(ws: seq<string>): string {
    if ws == [] then ""
    else if |ws| == 1 then ws[0]
    else ws[0] + "-" + Join(ws[1..])
  }

  /** One or more words with single hyphens between them: `[a-z0-9]+(-[a-z0-9]+)*`. */
  ghost predicate IsSlug(s: string) {
    exists ws: seq<string> :: Spells(ws, s)
  }

  predicate Spells(ws: seq<string>, s: string) {
    ws != [] && (forall i :: 0 <= i < |ws| ==> IsWord(ws[i])) && s == Join(ws)
  }

  // ---------------------------------------------------------------- slugify joins the words

  lemma WordsSkip(s: string)
    ensures Words(SkipOthers(s)) == Words(s)
  {
    if s == "" || IsAlnum(s[0]) {
    } else {
      WordsSkip(s[1..]);
    }
  }

  lemma JoinNonEmpty(ws: seq<string>)
    requires ws != [] && IsWord(ws[0])
    ensures Join(ws) != ""
  {
  }

  lemma JoinCons(w: string, tail: seq<string>)
    ensures Join([w] + tail) == w + if tail == [] then "" else "-" + Join(tail)
  {
    assert ([w] + tail)[1..] == tail;
    if tail != [] {
      assert w + "-" + Join(tail) == w + ("-" + Join(tail));
    } else {
      assert w + "" == w;
    }
  }

  /** Putting one more letter in front of a text: the letter joins the first word or is one. */
  lemma WordsLetter(s: string)
    requires s != "" && IsAlnum(s[0])
    ensures var rest := s[1..];
            if rest != "" && IsAlnum(rest[0])
            then Words(rest) != [] && Words(s) == [[s[0]] + Words(rest)[0]] + Words(rest)[1..]
            else Words(s) == [[s[0]]] + Words(rest)
  {
    var rest := s[1..];
    var w := FirstWord(s);
    if rest != "" && IsAlnum(rest[0]) {
      var v := FirstWord(rest);
      assert w == [s[0]] + v;
      assert s[|w|..] == rest[|v|..];
    } else {
      assert w == [s[0]] && s[|w|..] == rest;
    }
  }

  lemma JoinLetterInWord(s: string)
    requires |s| > 1 && IsAlnum(s[0]) && IsAlnum(s[1])
    ensures Words(s) != []
    ensures Join(Words(s)) == [s[0]] + Join(Words(s[1..]))
  {
    WordsLetter(s);
    hide Words, Join;
    var words := Words(s[1..]);
    var c, v, tail := [s[0]], words[0], words[1..];
    assert words == [v] + tail;
    JoinCons(v, tail);
    JoinCons(c + v, tail);
    Assoc(c, v, if tail == [] then "" else "-" + Join(tail));
  }

  lemma JoinLetterAlone(s: string)
    requires s != "" && IsAlnum(s[0]) && (|s| > 1 ==> !IsAlnum(s[1]))
    ensures Words(s) != []
    ensures Join(Words(s)) == [s[0]] + if Words(s[1..]) == [] then "" else "-" + Join(Words(s[1..]))
  {
    WordsLetter(s);
    hide Words, Join;
    JoinCons([s[0]], Words(s[1..]));
  }

  lemma Assoc(a: string, b: string, c: string)
    ensures (a + b) + c == a + (b + c)
  {
  }

  lemma {:induction false} StripEndFront(c: char, s: string)
    ensures StripEnd([c] + s) == if c != '-' || StripEnd(s) != "" then [c] + StripEnd(s) else ""
    decreases |s|
  {
    if s == "" {
      assert [c] + s == [c];
      assert [c][..0] == "";
    } else if s[|s| - 1] == '-' {
      assert ([c] + s)[..|s|] == [c] + s[..|s| - 1];
      StripEndFront(c, s[..|s| - 1]);
    }
  }

  lemma {:induction false} CollapseJoins(s: string)
    requires s != "" && IsAlnum(s[0])
    ensures StripEnd(Collapse(s)) == Join(Words(s))
    decreases |s|
  {
    var rest := s[1..];
    StripEndFront(s[0], Collapse(rest));
    if rest != "" && IsAlnum(rest[0]) {
      JoinLetterInWord(s);
      CollapseJoins(rest);
    } else {
      JoinLetterAlone(s);
      if rest != "" {
        CollapseGap(rest);
        if SkipOthers(rest) != "" {
          CollapseJoins(SkipOthers(rest));
        }
      }
    }
  }

  /** A gap between words becomes one hyphen, and none at the end. */
  lemma CollapseGap(s: string)
    requires s != "" && !IsAlnum(s[0])
    ensures var next := SkipOthers(s);
            && Words(s) == Words(next)
            && (next == "" ==> Words(s) == [] && StripEnd(Collapse(s)) == "")
            && (next != "" ==> Words(s) != [])
            && (next != "" && StripEnd(Collapse(next)) != "" ==>
                  StripEnd(Collapse(s)) == "-" + StripEnd(Collapse(next)))
            && (next != "" && StripEnd(Collapse(next)) == Join(Words(next)) ==> StripEnd(Collapse(next)) != "")
  {
    var next := SkipOthers(s);
    WordsSkip(s);
    StripEndFront('-', Collapse(next));
    assert "-" + Collapse(next) == ['-'] + Collapse(next);
    if next != "" {
      JoinNonEmpty(Words(next));
    }
  }

  lemma StripStartAlnum(s: string)
    requires s == "" || IsAlnum(s[0])
    ensures StripStart(Collapse(s)) == Collapse(s)
  {
  }

  /** Collapsing and stripping leaves the words with single hyphens between them. */
  lemma StripJoins(s: string)
    ensures StripEnd(StripStart(Collapse(s))) == Join(Words(s))
  {
    var next := SkipOthers(s);
    WordsSkip(s);
    StripStartAlnum(next);
    if next != s {
      assert ("-" + Collapse(next))[1..] == Collapse(next);
    }
    if next != "" {
      CollapseJoins(next);
    }
  }

  lemma {:induction false} WordsDropLast(s: string, c: char)
    requires !IsAlnum(c)
    ensures Words(s + [c]) == Words(s)
    decreases |s|
  {
    if s == "" {
      assert s + [c] == [c];
      assert [c][1..] == "";
    } else if !IsAlnum(s[0]) {
      assert (s + [c])[1..] == s[1..] + [c];
      WordsDropLast(s[1..], c);
    } else {
      var w := FirstWord(s);
      FirstWordStays(s, c);
      assert (s + [c])[|w|..] == s[|w|..] + [c];
      WordsDropLast(s[|w|..], c);
    }
  }

  lemma {:induction false} FirstWordStays(s: string, c: char)
    requires !IsAlnum(c)
    ensures FirstWord(s + [c]) == FirstWord(s)
  {
    if s == "" {
    } else {
      assert (s + [c])[1..] == s[1..] + [c];
      FirstWordStays(s[1..], c);
    }
  }

  lemma {:induction false} WordsTrimStart(s: string)
    ensures Words(TrimStart(s)) == Words(s)
  {
    if s == "" || !IsSpace(s[0]) {
    } else {
      WordsTrimStart(s[1..]);
    }
  }

  lemma {:induction false} WordsTrimEnd(s: string)
    ensures Words(TrimEnd(s)) == Words(s)
  {
    if s == "" || !IsSpace(s[|s| - 1]) {
    } else {
      WordsTrimEnd(s[..|s| - 1]);
      WordsDropLast(s[..|s| - 1], s[|s| - 1]);
      assert s == s[..|s| - 1] + [s[|s| - 1]];
    }
  }

  /** A slug is the words of the lower-cased name joined by hyphens, or "workspace" when there are none. */
  lemma SlugifyJoinsWords(value: string, lower: string -> string)
    ensures Slugify(value, lower) == if Words(lower(value)) == [] then "workspace" else Join(Words(lower(value)))
    ensures IsSlug(Slugify(value, lower))
  {
    var s := lower(value);
    WordsTrimStart(s);
    WordsTrimEnd(TrimStart(s));
    StripJoins(Trim(s));
    var ws := Words(s);
    if ws == [] {
      assert Spells([FALLBACK], FALLBACK);
    } else {
      JoinNonEmpty(ws);
      assert Spells(ws, Join(ws));
    }
  }

  // ---------------------------------------------------------------- slugs are fixed points

  lemma {:induction false} WordThenRest(w: string, rest: string)
    requires IsWord(w) && (rest == "" || !IsAlnum(rest[0]))
    ensures FirstWord(w + rest) == w
    ensures Words(w + rest) == [w] + Words(rest)
  {
    WordPrefix(w, rest);
    assert (w + rest)[|w|..] == rest;
    assert (w + rest)[0] == w[0];
  }

  lemma {:induction false} WordPrefix(w: string, rest: string)
    requires IsWordOrEmpty(w) && (rest == "" || !IsAlnum(rest[0]))
    ensures FirstWord(w + rest) == w
  {
    if w == "" {
      assert w + rest == rest;
    } else {
      assert (w + rest)[1..] == w[1..] + rest;
      WordPrefix(w[1..], rest);
    }
  }

  lemma {:induction false} WordsOfJoin(ws: seq<string>)
    requires forall i :: 0 <= i < |ws| ==> IsWord(ws[i])
    ensures Words(Join(ws)) == ws
  {
    if ws == [] {
    } else {
      WordsOfJoin(ws[1..]);
      if |ws| == 1 {
        WordThenRest(ws[0], "");
        assert ws[0] + "" == ws[0];
      } else {
        var rest := "-" + Join(ws[1..]);
        assert rest[1..] == Join(ws[1..]);
        WordThenRest(ws[0], rest);
        assert ws[0] + rest == Join(ws);
      }
    }
  }

  /** Lower-casing changes nothing in a slug. */
  ghost predicate KeepsSlugs(lower: string -> string) {
    forall s: string :: IsSlug(s) ==> lower(s) == s
  }

  /** Slugs come out as they went in; so making a slug of a slug changes nothing. */
  lemma SlugifyKeepsSlugs(slug: string, lower: string -> string)
    requires KeepsSlugs(lower) && IsSlug(slug)
    ensures Slugify(slug, lower) == slug
  {
    SlugifyJoinsWords(slug, lower);
    var ws: seq<string> :| Spells(ws, slug);
    WordsOfJoin(ws);
  }

  lemma SlugifyIdempotent(value: string, lower: string -> string)
    requires KeepsSlugs(lower)
    ensures Slugify(Slugify(value, lower), lower) == Slugify(value, lower)
  {
    SlugifyJoinsWords(value, lower);
    SlugifyKeepsSlugs(Slugify(value, lower), lower);
  }

  // ---------------------------------------------------------------- numbered candidates

  const DIGITS: string := "0123456789"

  function Decimal(n: nat): (s: string)
    ensures IsWord(s)
  {
    if n < 10 then [DIGITS[n]] else Decimal(n / 10) + [DIGITS[n % 10]]
  }

  function DigitValue(c: char): int {
    c as int - '0' as int
  }

  function Value(s: string): int {
    if s == "" then 0 else 10 * Value(s[..|s| - 1]) + DigitValue(s[|s| - 1])
  }

  lemma {:induction false} DecimalValue(n: nat)
    ensures Value(Decimal(n)) == n
  {
    assert forall d :: 0 <= d < 10 ==> DigitValue(DIGITS[d]) == d;
    if n < 10 {
      assert [DIGITS[n]][..0] == "";
    } else {
      DecimalValue(n / 10);
      assert Decimal(n)[..|Decimal(n)| - 1] == Decimal(n / 10);
    }
  }

  /** The base itself, then `base-2`, `base-3` and so on. */
  function NumberedSlug(slugBase: string, n: nat): string
    requires n >= 1
  {
    if n == 1 then slugBase else slugBase + "-" + Decimal(n)
  }

  lemma CandidatesDiffer(slugBase: string, m: nat, n: nat)
    requires 1 <= m && 1 <= n && m != n
    ensures NumberedSlug(slugBase, m) != NumberedSlug(slugBase, n)
  {
    DecimalValue(m);
    DecimalValue(n);
    var k := |slugBase| + 1;
    if m > 1 && n > 1 {
      assert NumberedSlug(slugBase, m)[k..] == Decimal(m);
      assert NumberedSlug(slugBase, n)[k..] == Decimal(n);
    }
  }

  lemma CandidateIsSlug(slugBase: string, n: nat)
    requires n >= 1 && IsSlug(slugBase)
    ensures IsSlug(NumberedSlug(slugBase, n))
  {
    if n > 1 {
      hide Join, Decimal, IsWord;
      var ws: seq<string> :| Spells(ws, slugBase);
      JoinAppend(ws, Decimal(n));
      assert Spells(ws + [Decimal(n)], NumberedSlug(slugBase, n));
    }
  }

  lemma {:induction false} JoinAppend(ws: seq<string>, w: string)
    requires ws != []
    ensures Join(ws + [w]) == Join(ws) + "-" + w
  {
    if |ws| == 1 {
      assert (ws + [w])[1..] == [w];
    } else {
      assert (ws + [w])[1..] == ws[1..] + [w];
      JoinAppend(ws[1..], w);
      assert ws[0] + "-" + (Join(ws[1..]) + "-" + w) == (ws[0] + "-" + Join(ws[1..])) + "-" + w;
    }
  }

  /** All candidates before number `n` are taken. */
  ghost predicate TakenBefore(slugBase: string, taken: set<string>, n: nat) {
    forall m: nat :: 1 <= m < n ==> NumberedSlug(slugBase, m) in taken
  }

  lemma TakenBeforeOne(slugBase: string, taken: set<string>)
    ensures TakenBefore(slugBase, taken, 1)
  {
  }

  lemma TakenBeforeNext(slugBase: string, taken: set<string>, n: nat)
    requires n >= 1 && TakenBefore(slugBase, taken, n) && NumberedSlug(slugBase, n) in taken
    ensures TakenBefore(slugBase, taken, n + 1)
  {
  }

  /** Distinct candidates need that many distinct slugs: the search cannot outlast the taken slugs. */
  lemma {:induction false} Pigeonhole(slugBase: string, taken: set<string>, n: nat)
    requires n >= 1 && TakenBefore(slugBase, taken, n)
    ensures n - 1 <= |taken|
  {
    if n <= 1 {
    } else {
      var last := NumberedSlug(slugBase, n - 1);
      var others := taken - {last};
      forall m: nat | 1 <= m < n - 1
        ensures NumberedSlug(slugBase, m) in others
      {
        CandidatesDiffer(slugBase, m, n - 1);
      }
      Pigeonhole(slugBase, others, n - 1);
    }
  }

  /** The first candidate from number `n` on that is not taken. */
  function FreeSlug(slugBase: string, taken: set<string>, n: nat): (slug: string)
    requires n >= 1 && TakenBefore(slugBase, taken, n)
    ensures slug !in taken
    decreases |taken| + 1 - n
  {
    if NumberedSlug(slugBase, n) !in taken then NumberedSlug(slugBase, n)
    else
      Pigeonhole(slugBase, taken, n + 1);
      FreeSlug(slugBase, taken, n + 1)
  }

  /** The loop tries at most one candidate more than there are taken slugs. */
  method ResolveUniqueSlug(base: string, taken: set<string>, lower: string -> string)
    returns (candidate: string, ghost number: nat)
    ensures candidate !in taken
    ensures 1 <= number <= |taken| + 1
    ensures candidate == NumberedSlug(Slugify(base, lower), number)
    ensures TakenBefore(Slugify(base, lower), taken, number)
    ensures candidate == FreeSlug(Slugify(base, lower), taken, 1)
    ensures IsSlug(candidate)
  {
    hide Slugify, Decimal, IsSlug, Words, Join, TakenBefore;
    var slugBase := Slugify(base, lower);
    TakenBeforeOne(slugBase, taken);
    candidate := slugBase;
    var suffix := 1;
    while candidate in taken
      invariant suffix >= 1 && candidate == NumberedSlug(slugBase, suffix)
      invariant TakenBefore(slugBase, taken, suffix)
      invariant FreeSlug(slugBase, taken, suffix) == FreeSlug(slugBase, taken, 1)
      decreases |taken| + 1 - suffix
    {
      TakenBeforeNext(slugBase, taken, suffix);
      Pigeonhole(slugBase, taken, suffix + 1);
      suffix := suffix + 1;
      candidate := slugBase + "-" + Decimal(suffix);
    }
    number := suffix;
    Pigeonhole(slugBase, taken, suffix);
    SlugifyJoinsWords(base, lower);
    CandidateIsSlug(slugBase, suffix);
  }

  // ---------------------------------------------------------------- in plain characters

  /** The characters that words are made of, by their codes: the digits and the small letters. */
  lemma AlnumCharacters(c: char)
    ensures IsAlnum(c) <==> 48 <= c as int <= 57 || 97 <= c as int <= 122
  {
  }

  /** The code points of the white space that is trimmed. */
  lemma SpaceCharacters(c: char)
    ensures IsSpace(c) <==>
            c as int in {9, 10, 11, 12, 13, 32, 160, 5760, 8192, 8193, 8194, 8195, 8196, 8197, 8198, 8199, 8200, 8201,
                         8202, 8232, 8233, 8239, 8287, 12288, 65279}
  {
  }

  predicate AllSpace(s: string) {
    forall i | 0 <= i < |s| :: IsSpace(s[i])
  }

  lemma {:induction false} TrimmedStart(s: string) returns (space: string)
    ensures AllSpace(space) && s == space + TrimStart(s)
    ensures TrimStart(s) == "" || !IsSpace(TrimStart(s)[0])
  {
    if s == "" || !IsSpace(s[0]) {
      space := "";
    } else {
      var more := TrimmedStart(s[1..]);
      space := [s[0]] + more;
      assert s == [s[0]] + s[1..];
    }
  }

  lemma {:induction false} TrimmedEnd(s: string) returns (space: string)
    ensures AllSpace(space) && s == TrimEnd(s) + space
    ensures TrimEnd(s) == "" || !IsSpace(TrimEnd(s)[|TrimEnd(s)| - 1])
  {
    if s == "" || !IsSpace(s[|s| - 1]) {
      space := "";
    } else {
      var more := TrimmedEnd(s[..|s| - 1]);
      space := more + [s[|s| - 1]];
      assert s == s[..|s| - 1] + [s[|s| - 1]];
    }
  }

  /** Trimming takes white space off both ends, and all of it. */
  lemma TrimIsMiddle(s: string) returns (before: string, after: string)
    ensures AllSpace(before) && AllSpace(after) && s == before + Trim(s) + after
    ensures Trim(s) == "" || (!IsSpace(Trim(s)[0]) && !IsSpace(Trim(s)[|Trim(s)| - 1]))
  {
    hide IsSpace, TrimStart, TrimEnd;
    before := TrimmedStart(s);
    after := TrimmedEnd(TrimStart(s));
    Assoc(before, Trim(s), after);
    if Trim(s) != "" {
      assert TrimStart(s)[0] == Trim(s)[0];
    }
  }

  /** The first candidate is the base itself and the second ends in 2; numbers are read back from their digits. */
  lemma Candidates(slugBase: string, n: nat)
    requires n >= 2
    ensures NumberedSlug(slugBase, 1) == slugBase && NumberedSlug(slugBase, 2) == slugBase + "-2"
    ensures NumberedSlug(slugBase, n) == slugBase + "-" + Decimal(n) && Value(Decimal(n)) == n
    ensures Decimal(n)[0] != '0'
  {
    DecimalValue(n);
    NoLeadingZero(n);
  }

  lemma {:induction false} NoLeadingZero(n: nat)
    requires n >= 1
    ensures Decimal(n)[0] != '0'
  {
    if n < 10 {
      assert DIGITS[n] != '0';
    } else {
      NoLeadingZero(n / 10);
    }
  }
}
