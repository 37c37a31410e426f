/** URL slugs: the shared normalisation and the search for one that no agent has taken. */
module Slugs {
  import opened Prelude
  import opened Text

  predicate Alnum(c: char) {
    'a' <= c <= 'z' || '0' <= c <= '9'
  }

  /**
  str.lower() on one character. Only the capitals and two others (the Kelvin sign and the dotted
  capital I, whose lower case is two characters) have a lower case that contains a-z; every other
  character is one to the pattern whatever its lower case, and is kept.
  */
  function LowerChar(c: char): string {
    if 'A' <= c <= 'Z' then [((c as int) + 32) as char]
    else if c == '\U{212A}' then "k"
    else if c == '\U{0130}' then "i\U{0307}"
    else [c]
  }

  function Lower(s: string): string {
    if s == "" then "" else LowerChar(s[0]) + Lower(s[1..])
  }

  /** The length of the longest prefix of characters inside (or outside) a-z0-9. */
  function Run(s: string, inside: bool): (n: nat)
    ensures n <= |s|
    ensures forall i | 0 <= i < n :: Alnum(s[i]) == inside
    ensures n < |s| ==> Alnum(s[n]) != inside
  {
    if s != "" && Alnum(s[0]) == inside then 1 + Run(s[1..], inside) else 0
  }

  /** re.sub(r"[^a-z0-9]+", "-", s): each maximal run outside the class becomes one hyphen. */
  function Squeeze(s: string): string
    decreases |s|
  {
    if s == "" then ""
    else if Alnum(s[0]) then s[..Run(s, true)] + Squeeze(s[Run(s, true)..])
    else "-" + Squeeze(s[Run(s, false)..])
  }

  function TrimLeft(s: string): string {
    if s != "" && s[0] == '-' then TrimLeft(s[1..]) else s
  }

  function TrimRight(s: string): string {
    if s != "" && s[|s| - 1] == '-' then TrimRight(s[..|s| - 1]) else s
  }

  function Normalise(text: string): string {
    TrimRight(TrimLeft(Squeeze(Lower(text))))
  }

  /** The normalised name, or a word of the caller's when nothing is left of it. */
  function Slugify(name: string, fallback: string): string {
    if Normalise(name) == "" then fallback else Normalise(name)
  }

  // ---------------------------------------------------------------- what normalising means

  /** The maximal alphanumeric runs of a text, in order. */
  function Words(s: string): seq<string>
    decreases |s|
  {
    if s == "" then []
    else if Alnum(s[0]) then [s[..Run(s, true)]] + Words(s[Run(s, true)..])
    else Words(s[Run(s, false)..])
  }

  function Hyphenated(ws: seq<string>): string {
    if ws == [] then "" else if |ws| == 1 then ws[0] else ws[0] + "-" + Hyphenated(ws[1..])
  }

  predicate IsWord(w: string) {
    w != "" && forall i | 0 <= i < |w| :: Alnum(w[i])
  }

  ghost predicate AllWords(ws: seq<string>) {
    forall i | 0 <= i < |ws| :: IsWord(ws[i])
  }

  /** Alphanumeric runs joined by single hyphens. */
  ghost predicate IsSlug(s: string) {
    exists ws: seq<string> :: ws != [] && AllWords(ws) && s == Hyphenated(ws)
  }

  lemma {:induction false} WordsAreWords(s: string)
    ensures AllWords(Words(s))
    decreases |s|
  {
    if s == "" {
    } else {
      WordsAreWords(s[Run(s, Alnum(s[0]))..]);
    }
  }

  lemma {:induction false} HyphenatedEnds(ws: seq<string>)
    requires ws != [] && AllWords(ws)
    ensures var s := Hyphenated(ws); s != "" && Alnum(s[0]) && Alnum(s[|s| - 1])
  {
    assert IsWord(ws[0]);
    if |ws| > 1 {
      assert AllWords(ws[1..]);
      HyphenatedEnds(ws[1..]);
    }
  }

  /** What is left after the leading alphanumeric run and the gap behind it. */
  function AfterGap(s: string): string {
    var t := s[Run(s, true)..];
    t[Run(t, false)..]
  }

  lemma SqueezeStep(s: string)
    requires s != "" && Alnum(s[0])
    ensures Words(s) == [s[..Run(s, true)]] + Words(AfterGap(s))
    ensures Squeeze(s) == if Run(s, true) == |s| then s else s[..Run(s, true)] + ("-" + Squeeze(AfterGap(s)))
    ensures |AfterGap(s)| < |s| && (AfterGap(s) != "" ==> Alnum(AfterGap(s)[0]))
    ensures AfterGap(s) != "" ==> Run(s, true) < |s| && AfterGap(s)[|AfterGap(s)| - 1] == s[|s| - 1]
    ensures AfterGap(s) == "" ==> (Run(s, true) == |s| <==> Alnum(s[|s| - 1]))
  {
    var r := Run(s, true);
    var t := s[r..];
    assert Run(s, true) > 0;
    if t == "" {
      assert s[..r] == s;
      assert Words(t) == [] && AfterGap(s) == "";
    } else {
      var g := Run(t, false);
      assert !Alnum(t[0]) && g > 0;
      assert t[|t| - 1] == s[|s| - 1];
    }
  }

  lemma SqueezeGap(s: string)
    requires s != "" && !Alnum(s[0])
    ensures Words(s) == Words(s[Run(s, false)..]) && Squeeze(s) == "-" + Squeeze(s[Run(s, false)..])
    ensures s[Run(s, false)..] != "" ==> Alnum(s[Run(s, false)])
  {
  }

  /** From an alphanumeric start, squeezing joins the words and leaves at most one hyphen after them. */
  lemma {:induction false} SqueezeJoins(s: string)
    requires s != "" && Alnum(s[0])
    ensures Words(s) != []
    ensures Squeeze(s) == Hyphenated(Words(s)) + (if Alnum(s[|s| - 1]) then "" else "-")
    decreases |s|
  {
    hide Squeeze, Words, Run, AfterGap;
    SqueezeStep(s);
    var w, u := s[..Run(s, true)], AfterGap(s);
    if u == "" {
      EmptyText();
    } else {
      SqueezeJoins(u);
      assert Words(s)[1..] == Words(u);
    }
  }

  lemma EmptyText()
    ensures Words("") == [] && Squeeze("") == "" && Hyphenated([]) == ""
  {
  }

  lemma TrimEnds(pre: string, core: string, post: string)
    requires pre in {"", "-"} && post in {"", "-"} && (core == "" ==> post == "")
    requires core != "" ==> core[0] != '-' && core[|core| - 1] != '-'
    ensures TrimRight(TrimLeft(pre + core + post)) == core
  {
    var s := pre + core + post;
    assert s == pre + (core + post);
    assert TrimLeft(s) == core + post by {
      assert core != "" ==> (core + post)[0] == core[0];
      if pre == "-" {
        assert s[1..] == core + post;
      } else {
        assert s == core + post;
      }
    }
    assert post == "-" ==> (core + post)[..|core|] == core;
    assert post == "" ==> core + post == core;
  }

  lemma NormalForm(text: string, pre: string, s: string)
    requires pre in {"", "-"} && Squeeze(Lower(text)) == pre + Squeeze(s) && Words(Lower(text)) == Words(s)
    requires s != "" ==> Alnum(s[0])
    ensures Normalise(text) == Hyphenated(Words(s))
  {
    hide Words, Squeeze, Lower, Run, Hyphenated, TrimLeft, TrimRight;
    EmptyText();
    if s == "" {
      assert pre + "" + "" == pre + Squeeze(s);
      TrimEnds(pre, "", "");
    } else {
      SqueezeJoins(s);
      WordsAreWords(s);
      HyphenatedEnds(Words(s));
      var core, post := Hyphenated(Words(s)), if Alnum(s[|s| - 1]) then "" else "-";
      assert pre + core + post == pre + Squeeze(s);
      TrimEnds(pre, core, post);
    }
  }

  /** Normalising is: take the alphanumeric runs of the lower-cased text, join them by single hyphens. */
  lemma NormaliseJoinsWords(text: string)
    ensures Normalise(text) == Hyphenated(Words(Lower(text)))
    ensures Normalise(text) != "" ==> IsSlug(Normalise(text))
  {
    hide Words, Squeeze, Lower, Run, Hyphenated, AllWords, Normalise;
    var s := Lower(text);
    EmptyText();
    WordsAreWords(s);
    if s == "" || Alnum(s[0]) {
      assert Squeeze(s) == "" + Squeeze(s);
      NormalForm(text, "", s);
    } else {
      SqueezeGap(s);
      NormalForm(text, "-", s[Run(s, false)..]);
    }
  }

  lemma {:induction false} RunOfWord(w: string, rest: string)
    requires (forall i | 0 <= i < |w| :: Alnum(w[i])) && (rest == "" || !Alnum(rest[0]))
    ensures Run(w + rest, true) == |w|
  {
    var s := w + rest;
    assert forall i | 0 <= i < |w| :: s[i] == w[i];
    assert rest != "" ==> s[|w|] == rest[0];
  }

  /** Words undoes joining. */
  lemma {:induction false} WordsOfHyphenated(ws: seq<string>)
    requires AllWords(ws)
    ensures Words(Hyphenated(ws)) == ws
  {
    if ws == [] {
    } else {
      var w, s := ws[0], Hyphenated(ws);
      assert IsWord(w);
      if |ws| == 1 {
        assert w + "" == w;
        RunOfWord(w, "");
        assert w[|w|..] == "" && w[..|w|] == w;
      } else {
        var rest := ws[1..];
        var tail := Hyphenated(rest);
        assert AllWords(rest);
        assert s == w + ("-" + tail);
        RunOfWord(w, "-" + tail);
        HyphenatedEnds(rest);
        var t := "-" + tail;
        assert s[|w|..] == t && s[..|w|] == w;
        assert t[1..] == tail;
        assert Run(t, false) == 1;
        WordsOfHyphenated(rest);
      }
    }
  }

  lemma {:induction false} LowerFixes(s: string)
    requires forall i | 0 <= i < |s| :: Alnum(s[i]) || s[i] == '-'
    ensures Lower(s) == s
  {
    if s == "" {
    } else {
      LowerFixes(s[1..]);
    }
  }

  lemma {:induction false} HyphenatedAlphabet(ws: seq<string>)
    requires AllWords(ws)
    ensures forall i | 0 <= i < |Hyphenated(ws)| :: Alnum(Hyphenated(ws)[i]) || Hyphenated(ws)[i] == '-'
  {
    if ws == [] {
    } else {
      assert IsWord(ws[0]);
      assert AllWords(ws[1..]);
      HyphenatedAlphabet(ws[1..]);
    }
  }

  /** A slug normalises to itself, so every slug is its own slug. */
  lemma SlugIsNormal(s: string)
    requires IsSlug(s)
    ensures s != "" && Normalise(s) == s
  {
    var ws :| ws != [] && AllWords(ws) && s == Hyphenated(ws);
    HyphenatedEnds(ws);
    HyphenatedAlphabet(ws);
    LowerFixes(s);
    WordsOfHyphenated(ws);
    NormaliseJoinsWords(s);
  }

  lemma WordIsSlug(w: string)
    requires IsWord(w)
    ensures IsSlug(w)
  {
    assert Hyphenated([w]) == w;
    assert AllWords([w]);
  }

  /** slugify answers a slug, and answers that slug when given it. */
  lemma SlugifyIsIdempotent(name: string, fallback: string)
    requires IsWord(fallback)
    ensures IsSlug(Slugify(name, fallback))
    ensures Slugify(Slugify(name, fallback), fallback) == Slugify(name, fallback)
  {
    NormaliseJoinsWords(name);
    WordIsSlug(fallback);
    SlugIsNormal(Slugify(name, fallback));
  }

  // ---------------------------------------------------------------- case

  /** ASCII capitals as small letters, everything else as it is. */
  function Folded(s: string): string {
    if s == "" then ""
    else [if 'A' <= s[0] <= 'Z' then (s[0] as int - 'A' as int + 'a' as int) as char else s[0]] + Folded(s[1..])
  }

  lemma {:induction false} LowerOfFolded(s: string)
    ensures Lower(Folded(s)) == Lower(s)
  {
    if s == "" {
    } else {
      LowerOfFolded(s[1..]);
      assert Folded(s)[1..] == Folded(s[1..]);
    }
  }

  /** Capitals do not matter to a slug. */
  lemma CaseDoesNotMatter(s: string, t: string)
    requires Folded(s) == Folded(t)
    ensures Normalise(s) == Normalise(t)
  {
    LowerOfFolded(s);
    LowerOfFolded(t);
  }

  lemma {:induction false} FoldedIsLower(s: string)
    requires forall i | 0 <= i < |s| :: ' ' <= s[i] <= '~'
    ensures Lower(s) == Folded(s)
  {
    if s == "" {
    } else {
      FoldedIsLower(s[1..]);
    }
  }

  /** The two other characters whose lower case reaches into a-z. */
  lemma SpecialCapitals()
    ensures Normalise("\U{212A}") == "k" && Normalise("\U{0130}") == "i"
  {
    assert Lower("\U{212A}") == "k" + Lower("") == "k";
    WordIsSlug("k");
    SlugIsNormal("k");
    LowerFixes("k");
    assert Normalise("\U{212A}") == Normalise("k");
    var s := "i\U{0307}";
    assert Lower("\U{0130}") == s + Lower("") == s;
    assert s[1..] == "\U{0307}" && s[..1] == "i" && "\U{0307}"[1..] == "";
    assert Run("\U{0307}", true) == 0 && Run("\U{0307}", false) == 1;
    assert Words(s) == ["i"] + Words("\U{0307}") == ["i"];
    NormaliseJoinsWords("\U{0130}");
  }

  lemma {:induction false} NoWordsIff(s: string)
    ensures Words(s) == [] <==> forall i | 0 <= i < |s| :: !Alnum(s[i])
    decreases |s|
  {
    if s == "" {
    } else if !Alnum(s[0]) {
      var n := Run(s, false);
      NoWordsIff(s[n..]);
      assert forall i | n <= i < |s| :: s[i] == s[n..][i - n];
    }
  }

  /** Exactly when the caller's word is used: nothing in the lower-cased name is a letter or a digit. */
  lemma FallsBackIff(name: string, fallback: string)
    requires IsWord(fallback)
    ensures if forall i | 0 <= i < |Lower(name)| :: !Alnum(Lower(name)[i])
            then Slugify(name, fallback) == fallback
            else Slugify(name, fallback) == Hyphenated(Words(Lower(name))) != ""
  {
    hide Lower, Words;
    NormaliseJoinsWords(name);
    NoWordsIff(Lower(name));
    WordsAreWords(Lower(name));
    if Words(Lower(name)) != [] {
      HyphenatedEnds(Words(Lower(name)));
    }
  }

  // ---------------------------------------------------------------- allocation

  /** The i-th slug the search tries: base, base-2, base-3, ... */
  function Candidate(base: string, i: nat): string {
    if i == 0 then base else base + "-" + Decimal(i + 1)
  }

  lemma CandidatesDiffer(base: string, i: nat, j: nat)
    requires i != j
    ensures Candidate(base, i) != Candidate(base, j)
  {
    var stem := base + "-";
    if i > 0 && j > 0 && Candidate(base, i) == Candidate(base, j) {
      assert Decimal(i + 1) == (stem + Decimal(i + 1))[|stem|..];
      assert Decimal(j + 1) == (stem + Decimal(j + 1))[|stem|..];
      DecimalInjective(i + 1, j + 1);
    } else {
      assert |Candidate(base, i)| > |base| || |Candidate(base, j)| > |base|;
    }
  }

  lemma {:induction false} HyphenatedAppend(ws: seq<string>, w: string)
    requires ws != []
    ensures Hyphenated(ws + [w]) == Hyphenated(ws) + "-" + w
  {
    if |ws| == 1 {
      assert (ws + [w])[1..] == [w];
    } else {
      assert (ws + [w])[1..] == ws[1..] + [w];
      HyphenatedAppend(ws[1..], w);
    }
  }

  lemma CandidateIsSlug(base: string, i: nat)
    requires IsSlug(base)
    ensures IsSlug(Candidate(base, i))
  {
    if i > 0 {
      var ws :| ws != [] && AllWords(ws) && base == Hyphenated(ws);
      var d := Decimal(i + 1);
      HyphenatedAppend(ws, d);
      assert IsWord(d);
      assert AllWords(ws + [d]);
    }
  }

  /** Python's "if hint and hint.strip()". */
  predicate Present(hint: Option<string>) {
    hint.Some? && Strip(hint.value) != ""
  }

  function SlugSource(hint: Option<string>, name: Option<string>): string {
    if Present(hint) then hint.value else if name.Some? then name.value else ""
  }

  /**
  The search: the first candidate that is free, found after looking at no more of them than there
  are taken slugs, plus the free one.
  */
  method FirstFree(base: string, taken: set<string>) returns (slug: string, refused: nat)
    ensures slug == Candidate(base, refused) && slug !in taken
    ensures forall i | 0 <= i < refused :: Candidate(base, i) in taken
    ensures refused <= |taken|
  {
    hide Candidate, Decimal;
    var n := 2;
    slug, refused := base, 0;
    CandidateForms(base, 0);
    while slug in taken
      invariant n == refused + 2 && slug == Candidate(base, refused)
      invariant forall i | 0 <= i < refused :: Candidate(base, i) in taken
      decreases |taken| - refused
    {
      refused := refused + 1;
      Pigeonhole(base, taken, refused);
      CandidateForms(base, refused);
      slug, n := base + "-" + Decimal(n), n + 1;
    }
    Pigeonhole(base, taken, refused);
  }

  lemma SourceIs(hint: Option<string>, name: Option<string>)
    ensures hint.Some? && (exists i :: 0 <= i < |hint.value| && !IsSpace(hint.value[i])) ==>
              SlugSource(hint, name) == hint.value
    ensures (hint.None? || forall i | 0 <= i < |hint.value| :: IsSpace(hint.value[i])) ==>
              SlugSource(hint, name) == if name.Some? then name.value else ""
  {
    hide IsSpace;
    if hint.Some? {
      StripEmptyIff(hint.value);
    }
  }

  /** The slug of a new supervisor: a given one is kept as it is, otherwise the first free one is taken. */
  method AllocateSlug(given: Option<string>, hint: Option<string>, name: Option<string>, taken: set<string>)
    returns (slug: string)
    ensures given.Some? && given.value != "" ==> slug == given.value
    ensures !(given.Some? && given.value != "") ==>
              IsSlug(slug) && FirstFreeOf(Slugify(SlugSource(hint, name), "super"), taken, slug)
  {
    hide Slugify, IsSlug, Candidate, Decimal, Strip;
    if given.Some? && given.value != "" {
      return given.value;
    }
    var src := if Present(hint) then hint.value else if name.Some? then name.value else "";
    var base := Slugify(src, "super");
    SlugifyIsIdempotent(src, "super");
    var refused;
    slug, refused := FirstFree(base, taken);
    CandidateIsSlug(base, refused);
  }

  /** The slug is the base or base-k for the least k >= 2 that is free. */
  ghost predicate FirstFreeOf(base: string, taken: set<string>, slug: string) {
    && slug !in taken
    && exists n :: 0 <= n <= |taken| && slug == Candidate(base, n)
                   && forall i | 0 <= i < n :: Candidate(base, i) in taken
  }

  lemma CandidateForms(base: string, i: nat)
    ensures Candidate(base, i) == if i == 0 then base else base + "-" + Decimal(i + 1)
  {
  }

  /** Candidates are pairwise different, so only as many are taken as there are taken slugs. */
  lemma {:induction false} Pigeonhole(base: string, taken: set<string>, k: nat)
    requires forall i | 0 <= i < k :: Candidate(base, i) in taken
    ensures k <= |taken|
  {
    hide Candidate;
    if k == 0 {
    } else {
      var last := Candidate(base, k - 1);
      forall i | 0 <= i < k - 1 ensures Candidate(base, i) in taken - {last} {
        CandidatesDiffer(base, i, k - 1);
      }
      Pigeonhole(base, taken - {last}, k - 1);
    }
  }
}
