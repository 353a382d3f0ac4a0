/** pkg/admin/view_chrome.go: the DOM id fragment of a navigation label. */
module NavSlug {
  const EMPTY_SLUG := "section"

  predicate Alnum(c: char) {
    'a' <= c <= 'z' || '0' <= c <= '9'
  }

  // unicode.ToLower, as far as it reaches ASCII letters and digits: every other
  // rune lowers to one outside them.
  function LowerRune(c: char): char {
    if 'A' <= c <= 'Z' then (c as int + 32) as char
    else if c == '\U{212A}' then 'k'
    else if c == '\U{0130}' then 'i'
    else c
  }

  const UPPER := "ABCDEFGHIJKLMNOPQRSTUVWXYZ"
  const LOWER := "abcdefghijklmnopqrstuvwxyz"

  const DIGITS := "0123456789"

  // The runes kept are those of [a-z0-9].
  lemma LettersAre(c: char)
    ensures Alnum(c) <==> c in LOWER || c in DIGITS
  {
    var n := c as int;
    if '0' <= c <= '9' {
      assert c == DIGITS[n - 48];
    } else if 'a' <= c <= 'z' {
      assert c == LOWER[n - 97];
    }
  }

  // A capital lowers to its own small letter, and of the other runes only the
  // Kelvin sign and the dotted I lower to one.
  lemma CapitalsLower(c: char)
    ensures forall i | 0 <= i < 26 :: LowerRune(UPPER[i]) == LOWER[i]
    ensures LowerRune('\U{212A}') == 'k' && LowerRune('\U{0130}') == 'i'
    ensures c !in UPPER && c as int !in {0x130, 0x212A} ==> LowerRune(c) == c
  {
    if 'A' <= c <= 'Z' {
      assert c == UPPER[c as int - 65];
    }
  }

  function Lower(s: string): string {
    seq(|s|, i requires 0 <= i < |s| => LowerRune(s[i]))
  }

  // ----- the meaning: the label's words, joined by hyphens -----

  // The length of the leading run of letters and digits.
  function RunLength(s: string): (n: nat)
    ensures n <= |s| && (forall i | 0 <= i < n :: Alnum(s[i])) && (n < |s| ==> !Alnum(s[n]))
  {
    if s == [] || !Alnum(s[0]) then 0 else 1 + RunLength(s[1..])
  }

  // The maximal runs of letters and digits.
  function Words(s: string): (ws: seq<string>)
    ensures forall w | w in ws :: IsWord(w)
    decreases |s|
  {
    if s == [] then []
    else if !Alnum(s[0]) then Words(s[1..])
    else [s[..RunLength(s)]] + Words(s[RunLength(s)..])
  }

  predicate IsWord(w: string) {
    w != [] && forall c | c in w :: Alnum(c)
  }

  function Joined(ws: seq<string>): string {
    if ws == [] then [] else if |ws| == 1 then ws[0] else ws[0] + ['-'] + Joined(ws[1..])
  }

  function Named(words: seq<string>): seq<string> {
    if words == [] then [EMPTY_SLUG] else words
  }

  function Slug(title: string): string {
    Joined(Named(Words(Lower(title))))
  }

  // ----- the loop -----

  lemma RunLengthSplit(p: string, q: string)
    ensures RunLength(p + q) == if RunLength(p) < |p| then RunLength(p) else |p| + RunLength(q)
  {
    if p == [] {
      assert p + q == q;
    } else if Alnum(p[0]) {
      assert (p + q)[1..] == p[1..] + q;
      RunLengthSplit(p[1..], q);
    }
  }

  lemma Regroup<T>(a: seq<T>, b: seq<T>, c: seq<T>)
    ensures a + (b + c) == (a + b) + c
  {
  }

  // A run not followed by a letter or digit is a word.
  lemma WordThen(w: string, rest: string)
    requires IsWord(w) && (rest == [] || !Alnum(rest[0]))
    ensures Words(w + rest) == [w] + Words(rest)
  {
    assert forall i | 0 <= i < |w| :: w[i] in w && Alnum(w[i]);
    RunLengthSplit(w, rest);
    assert (w + rest)[..|w|] == w && (w + rest)[|w|..] == rest;
  }

  // A string that starts with a letter or digit is a word and a rest.
  lemma TakeWord(s: string) returns (w: string, rest: string)
    requires s != [] && Alnum(s[0])
    ensures s == w + rest && IsWord(w) && (rest == [] || !Alnum(rest[0])) && |rest| < |s|
    ensures Words(s) == [w] + Words(rest)
  {
    w, rest := s[..RunLength(s)], s[RunLength(s)..];
    WordThen(w, rest);
  }

  // A rune that is neither letter nor digit ends the words before it.
  lemma {:induction false} WordsSplit(p: string, c: char, q: string)
    requires !Alnum(c)
    ensures Words(p + [c] + q) == Words(p) + Words(q)
    decreases |p|
  {
    var s := p + [c] + q;
    if p == [] {
      assert s[1..] == q;
    } else if !Alnum(p[0]) {
      assert s[1..] == p[1..] + [c] + q;
      WordsSplit(p[1..], c, q);
    } else {
      var w, rest := TakeWord(p);
      Regroup(w, rest, [c]);
      Regroup(w, rest + [c], q);
      WordThen(w, rest + [c] + q);
      WordsSplit(rest, c, q);
      Regroup([w], Words(rest), Words(q));
    }
  }

  // What one more letter or digit does.
  lemma {:induction false} WordsGrow(p: string, c: char)
    requires Alnum(c)
    ensures var ws := Words(p);
            if p == [] || !Alnum(p[|p| - 1]) then Words(p + [c]) == ws + [[c]]
            else ws != [] && Words(p + [c]) == ws[..|ws| - 1] + [ws[|ws| - 1] + [c]]
    decreases |p|
  {
    var s := p + [c];
    if p == [] {
      WordThen([c], []);
      assert s == [c] + [];
    } else if !Alnum(p[0]) {
      assert s[1..] == p[1..] + [c];
      WordsGrow(p[1..], c);
    } else {
      var w, rest := TakeWord(p);
      if rest == [] {
        WordThen(w + [c], []);
        assert p == w && s == (w + [c]) + [];
      } else {
        Regroup(w, rest, [c]);
        WordThen(w, rest + [c]);
        WordsGrow(rest, c);
        var ws := Words(rest);
        Regroup([w], ws, [[c]]);
        if Alnum(rest[|rest| - 1]) {
          Regroup([w], ws[..|ws| - 1], [ws[|ws| - 1] + [c]]);
          assert ([w] + ws)[..|ws|] == [w] + ws[..|ws| - 1];
        }
      }
    }
  }

  lemma {:induction false} JoinedAppend(ws: seq<string>, w: string)
    ensures Joined(ws + [w]) == if ws == [] then w else Joined(ws) + ['-'] + w
  {
    if ws != [] {
      assert (ws + [w])[1..] == ws[1..] + [w];
      JoinedAppend(ws[1..], w);
    }
  }

  lemma JoinedGrow(front: seq<string>, last: string, c: char)
    ensures Joined(front + [last + [c]]) == Joined(front + [last]) + [c]
  {
    JoinedAppend(front, last);
    JoinedAppend(front, last + [c]);
    Regroup(Joined(front) + ['-'], last, [c]);
  }

  lemma JoinedEmpty(p: string)
    ensures Joined(Words(p)) == [] <==> Words(p) == []
  {
    var ws := Words(p);
    if ws != [] {
      assert IsWord(ws[0]);
    }
  }

  // One turn of the loop on a letter or digit.
  lemma JoinedWordsGrow(p: string, c: char)
    requires Alnum(c)
    ensures var b := Joined(Words(p));
            var gap := p != [] && !Alnum(p[|p| - 1]);
            Joined(Words(p + [c])) == (if gap && b != [] then b + ['-'] else b) + [c]
  {
    WordsGrow(p, c);
    JoinedEmpty(p);
    var ws := Words(p);
    if p == [] || !Alnum(p[|p| - 1]) {
      JoinedAppend(ws, [c]);
    } else {
      JoinedGrow(ws[..|ws| - 1], ws[|ws| - 1], c);
      assert ws[..|ws| - 1] + [ws[|ws| - 1]] == ws;
    }
  }

  method Build(title: string) returns (slug: string)
    ensures slug == Slug(title)
  {
    var lowered := Lower(title);
    var b := "";
    var pendingHyphen := false;
    for i := 0 to |lowered|
      invariant b == Joined(Words(lowered[..i]))
      invariant pendingHyphen <==> i > 0 && !Alnum(lowered[i - 1])
    {
      var c, done := lowered[i], lowered[..i];
      assert lowered[..i + 1] == done + [c];
      if Alnum(c) {
        JoinedWordsGrow(done, c);
        if pendingHyphen && |b| > 0 {
          b := b + ['-'];
        }
        pendingHyphen := false;
        b := b + [c];
      } else {
        WordsSplit(done, c, []);
        assert done + [c] + [] == done + [c] && Words(done) + Words([]) == Words(done);
        pendingHyphen := true;
      }
    }
    assert lowered[..|lowered|] == lowered;
    JoinedEmpty(lowered);
    if |b| == 0 {
      return EMPTY_SLUG;
    }
    return b;
  }

  // ----- what a slug is -----

  // [a-z0-9]+(?:-[a-z0-9]+)*, rune by rune.
  predicate SlugPattern(s: string) {
    && s != [] && Alnum(s[0]) && Alnum(s[|s| - 1])
    && (forall i | 0 <= i < |s| :: Alnum(s[i]) || s[i] == '-')
    && (forall i | 0 < i < |s| :: Alnum(s[i - 1]) || Alnum(s[i]))
  }

  lemma {:induction false} JoinedFitsPattern(ws: seq<string>)
    requires ws != [] && forall w | w in ws :: IsWord(w)
    ensures SlugPattern(Joined(ws))
  {
    assert IsWord(ws[0]);
    if |ws| > 1 {
      JoinedFitsPattern(ws[1..]);
      var w, rest, s := ws[0], Joined(ws[1..]), Joined(ws);
      assert s == w + ['-'] + rest;
      forall i | |w| < i < |s| ensures s[i] == rest[i - |w| - 1] {
      }
    }
  }

  lemma NamedAreWords(words: seq<string>)
    requires forall w | w in words :: IsWord(w)
    ensures Named(words) != [] && forall w | w in Named(words) :: IsWord(w)
  {
    assert IsWord(EMPTY_SLUG);
  }

  // Every slug fits the slug fields' pattern.
  lemma SlugFitsPattern(title: string)
    ensures SlugPattern(Slug(title))
  {
    NamedAreWords(Words(Lower(title)));
    JoinedFitsPattern(Named(Words(Lower(title))));
  }

  // Joining and splitting into words are inverse.
  lemma {:induction false} WordsOfJoined(ws: seq<string>)
    requires forall w | w in ws :: IsWord(w)
    ensures Words(Joined(ws)) == ws
  {
    if ws != [] {
      assert IsWord(ws[0]);
      if |ws| == 1 {
        WordThen(ws[0], []);
        assert ws[0] + [] == ws[0];
      } else {
        WordsOfJoined(ws[1..]);
        var rest := ['-'] + Joined(ws[1..]);
        WordThen(ws[0], rest);
        assert rest[1..] == Joined(ws[1..]);
        Regroup(ws[0], ['-'], Joined(ws[1..]));
      }
    }
  }

  lemma AfterHyphen(s: string, n: nat)
    requires SlugPattern(s) && n < |s| && !Alnum(s[n])
    ensures n + 1 < |s| && s[n] == '-' && SlugPattern(s[n + 1..])
  {
    var rest := s[n + 1..];
    forall i | 0 < i < |rest| ensures Alnum(rest[i - 1]) || Alnum(rest[i]) {
      assert Alnum(s[n + 1 + i - 1]) || Alnum(s[n + 1 + i]);
    }
  }

  lemma {:induction false} PatternIsJoined(s: string)
    requires SlugPattern(s)
    ensures Joined(Words(s)) == s
    decreases |s|
  {
    var n := RunLength(s);
    if n == |s| {
      assert s[..n] == s && s[n..] == [];
    } else {
      AfterHyphen(s, n);
      var rest := s[n + 1..];
      assert s[n..][1..] == rest;
      PatternIsJoined(rest);
      JoinedEmpty(rest);
      JoinedCons(s[..n], Words(rest));
      CutAt(s, n);
    }
  }

  lemma CutAt(s: string, n: nat)
    requires n < |s|
    ensures s == s[..n] + [s[n]] + s[n + 1..]
  {
  }

  lemma JoinedCons(w: string, ws: seq<string>)
    requires ws != []
    ensures Joined([w] + ws) == w + ['-'] + Joined(ws)
  {
    assert ([w] + ws)[1..] == ws;
  }

  lemma PatternIsLower(s: string)
    requires SlugPattern(s)
    ensures Lower(s) == s
  {
  }

  // A label is its own slug exactly when it fits the pattern.
  lemma SlugFixesExactlyThePattern(s: string)
    ensures Slug(s) == s <==> SlugPattern(s)
  {
    SlugFitsPattern(s);
    if SlugPattern(s) {
      PatternIsLower(s);
      PatternIsJoined(s);
      JoinedEmpty(s);
    }
  }

  lemma SlugIsIdempotent(title: string)
    ensures Slug(Slug(title)) == Slug(title)
  {
    SlugFitsPattern(title);
    SlugFixesExactlyThePattern(Slug(title));
  }

  // The letters and digits of s.
  function Letters(s: string): string {
    if s == [] then [] else (if Alnum(s[0]) then [s[0]] else []) + Letters(s[1..])
  }

  lemma {:induction false} LettersAppend(a: string, b: string)
    ensures Letters(a + b) == Letters(a) + Letters(b)
  {
    if a == [] {
      assert a + b == b;
    } else {
      assert (a + b)[0] == a[0] && (a + b)[1..] == a[1..] + b;
      LettersAppend(a[1..], b);
      if Alnum(a[0]) {
        assert [a[0]] + (Letters(a[1..]) + Letters(b)) == Letters(a) + Letters(b);
      }
    }
  }

  lemma {:induction false} LettersOfRun(w: string)
    requires forall c | c in w :: Alnum(c)
    ensures Letters(w) == w
  {
    if w != [] {
      LettersOfRun(w[1..]);
    }
  }

  lemma LettersAfterWord(w: string, rest: string)
    requires IsWord(w)
    ensures Letters(w + rest) == w + Letters(rest)
  {
    LettersOfRun(w);
    LettersAppend(w, rest);
  }

  lemma LettersAfterHyphen(rest: string)
    ensures Letters(['-'] + rest) == Letters(rest)
  {
    assert (['-'] + rest)[1..] == rest;
  }

  lemma {:induction false} JoinedLetters(s: string)
    ensures Letters(Joined(Words(s))) == Letters(s)
    ensures Letters(s) == [] <==> Words(s) == []
    decreases |s|
  {
    if s != [] && !Alnum(s[0]) {
      JoinedLetters(s[1..]);
    } else if s != [] {
      var w, rest := TakeWord(s);
      JoinedLetters(rest);
      LettersAfterWord(w, rest);
      if Words(rest) == [] {
        LettersOfRun(w);
        assert w + [] == w;
      } else {
        JoinedCons(w, Words(rest));
        Regroup(w, ['-'], Joined(Words(rest)));
        LettersAfterWord(w, ['-'] + Joined(Words(rest)));
        LettersAfterHyphen(Joined(Words(rest)));
      }
    }
  }

  // The slug keeps the lowered letters and digits in order; a label without any
  // becomes "section".
  lemma SlugKeepsLetters(title: string)
    ensures var letters := Letters(Lower(title));
            if letters == [] then Slug(title) == "section" else Letters(Slug(title)) == letters
  {
    JoinedLetters(Lower(title));
  }

  // Two labels share an id exactly when they have the same words, so distinct
  // labels can: what separates the words is lost.
  lemma SharedSlugs(a: string, b: string)
    ensures Slug(a) == Slug(b) <==> Named(Words(Lower(a))) == Named(Words(Lower(b)))
  {
    NamedAreWords(Words(Lower(a)));
    NamedAreWords(Words(Lower(b)));
    WordsOfJoined(Named(Words(Lower(a))));
    WordsOfJoined(Named(Words(Lower(b))));
  }

  lemma SeparatorsAreLost(p: string, c: char, d: char, q: string)
    requires !Alnum(LowerRune(c)) && !Alnum(LowerRune(d))
    ensures Slug(p + [c] + q) == Slug(p + [d] + q)
  {
    assert Lower(p + [c] + q) == Lower(p) + [LowerRune(c)] + Lower(q);
    assert Lower(p + [d] + q) == Lower(p) + [LowerRune(d)] + Lower(q);
    WordsSplit(Lower(p), LowerRune(c), Lower(q));
    WordsSplit(Lower(p), LowerRune(d), Lower(q));
  }
}
