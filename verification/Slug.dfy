/** Goal slugs: internal/goals slugify and the collision loop of CreateGoal. */
module Slug {
  import opened Text
  import opened Channels

  predicate IsKept(c: char) {
    'a' <= c <= 'z' || '0' <= c <= '9'
  }

  predicate IsSeparator(c: char) {
    c == ' ' || c == '-' || c == '_' || c == '/' || c == '.'
  }

  predicate IsSlugChar(c: char) {
    IsKept(c) || c == '-'
  }

  predicate EndsInDash(s: string) {
    s != "" && s[|s| - 1] == '-'
  }

  /** What the builder holds after one more character. */
  function Step(b: string, c: char): string {
    if IsKept(c) then b + [c]
    else if IsSeparator(c) && !EndsInDash(b) && b != "" then b + "-"
    else b
  }

  function Scan(s: string): string {
    if s == "" then "" else Step(Scan(s[..|s| - 1]), s[|s| - 1])
  }

  function Slugified(title: string, lower: char -> char): string {
    var out := Trim(Scan(LowerBy(TrimSpace(title), lower)), Dashes);
    if out == "" then "goal" else out
  }

  /** A slug: not empty, lower-case letters, digits and single inner dashes. */
  ghost predicate IsSlug(s: string) {
    && s != ""
    && (forall i | 0 <= i < |s| :: IsSlugChar(s[i]))
    && s[0] != '-' && s[|s| - 1] != '-'
    && (forall i | 0 <= i < |s| - 1 :: !(s[i] == '-' && s[i + 1] == '-'))
  }

  // ------------------------------------------------------- a second definition

  /** The kept characters between separators, empty pieces included. */
  function Pieces(s: string): (r: seq<string>)
    ensures |r| > 0
  {
    if s == "" then [""]
    else
      var r, c := Pieces(s[..|s| - 1]), s[|s| - 1];
      var m := |r| - 1;
      if IsKept(c) then r[m := r[m] + [c]]
      else if IsSeparator(c) then r + [""]
      else r
  }

  function Words(pieces: seq<string>): seq<string> {
    if pieces == [] then []
    else
      var m := |pieces| - 1;
      Words(pieces[..m]) + if pieces[m] == "" then [] else [pieces[m]]
  }

  function JoinDash(words: seq<string>): string {
    if words == [] then ""
    else if |words| == 1 then words[0]
    else JoinDash(words[..|words| - 1]) + "-" + words[|words| - 1]
  }

  ghost predicate IsWord(w: string) {
    w != "" && forall j | 0 <= j < |w| :: IsKept(w[j])
  }

  lemma WordsUpdate(r: seq<string>, x: string)
    requires r != []
    ensures Words(r[|r| - 1 := x]) == Words(r[..|r| - 1]) + if x == "" then [] else [x]
  {
    assert r[|r| - 1 := x][..|r| - 1] == r[..|r| - 1];
  }

  lemma JoinSnoc(words: seq<string>, w: string)
    ensures JoinDash(words + [w]) == (if words == [] then "" else JoinDash(words) + "-") + w
  {
    assert (words + [w])[..|words|] == words;
  }

  /** The builder is the words so far joined by dashes, with one more dash if a
      separator came after the last word. */
  lemma {:induction false} ScanJoins(s: string)
    ensures Shows(Scan(s), Pieces(s))
    decreases |s|
  {
    if s == "" {
      assert Words([""]) == [];
    } else {
      var init, c := s[..|s| - 1], s[|s| - 1];
      ScanJoins(init);
      if IsKept(c) {
        KeptStep(Scan(init), Pieces(init), c);
      } else if IsSeparator(c) {
        SeparatorStep(Scan(init), Pieces(init));
      }
    }
  }

  ghost predicate AllWords(words: seq<string>) {
    forall i | 0 <= i < |words| :: IsWord(words[i])
  }

  /** What the builder shows of the pieces so far. */
  ghost predicate Shows(b: string, r: seq<string>) {
    && r != [] && (r[|r| - 1] == "" || IsWord(r[|r| - 1]))
    && AllWords(Words(r))
    && b == JoinDash(Words(r)) + (if Words(r) != [] && r[|r| - 1] == "" then "-" else "")
  }

  /** What comes before the last, perhaps still empty, word. */
  function Before(words: seq<string>): string {
    if words == [] then "" else JoinDash(words) + "-"
  }

  lemma WordsLast(r: seq<string>)
    requires r != []
    ensures Words(r) == Words(r[..|r| - 1]) + if r[|r| - 1] == "" then [] else [r[|r| - 1]]
  {
  }

  lemma ShownSplit(b: string, r: seq<string>)
    requires Shows(b, r)
    ensures b == Before(Words(r[..|r| - 1])) + r[|r| - 1]
    ensures AllWords(Words(r[..|r| - 1]))
  {
    var front, last := Words(r[..|r| - 1]), r[|r| - 1];
    WordsLast(r);
    JoinSnoc(front, last);
    if last == "" {
      assert front + [] == front;
    }
    assert forall i | 0 <= i < |front| :: front[i] == Words(r)[i];
  }

  lemma ShowsWord(r: seq<string>, front: seq<string>, w: string)
    requires r != [] && r[|r| - 1] == w && IsWord(w) && AllWords(front) && Words(r) == front + [w]
    ensures Shows(Before(front) + w, r)
  {
    JoinSnoc(front, w);
    AllWordsSnoc(front, w);
    assert JoinDash(front + [w]) + "" == JoinDash(front + [w]) == Before(front) + w;
  }

  lemma AllWordsSnoc(front: seq<string>, w: string)
    requires AllWords(front) && IsWord(w)
    ensures AllWords(front + [w])
  {
  }

  lemma KeptStep(b: string, r: seq<string>, c: char)
    requires Shows(b, r) && IsKept(c)
    ensures Shows(b + [c], r[|r| - 1 := r[|r| - 1] + [c]])
  {
    var front, last := Words(r[..|r| - 1]), r[|r| - 1];
    ShownSplit(b, r);
    WordsUpdate(r, last + [c]);
    ShowsWord(r[|r| - 1 := last + [c]], front, last + [c]);
    assert (Before(front) + last) + [c] == Before(front) + (last + [c]);
  }

  lemma SeparatorStep(b: string, r: seq<string>)
    requires Shows(b, r)
    ensures Shows(if EndsInDash(b) || b == "" then b else b + "-", r + [""])
  {
    var words, last := Words(r), r[|r| - 1];
    assert (r + [""])[..|r|] == r;
    assert Words(r + [""]) == words + [] == words;
    if words == [] {
      assert b == "";
    } else {
      JoinEnds(words);
      if last != "" {
        assert b == JoinDash(words);
      }
    }
  }

  /** Non-empty words joined by dashes begin and end with a kept character. */
  lemma {:induction false} JoinEnds(words: seq<string>)
    requires words != []
    requires AllWords(words)
    ensures IsSlug(JoinDash(words))
    decreases |words|
  {
    if |words| > 1 {
      var init, w := words[..|words| - 1], words[|words| - 1];
      JoinEnds(init);
      var a := JoinDash(init);
      var b := a + "-" + w;
      assert b == JoinDash(words);
      forall i | 0 <= i < |b| ensures IsSlugChar(b[i]) {
        if i > |a| {
          assert b[i] == w[i - |a| - 1];
        }
      }
      assert b[0] == a[0] && b[|b| - 1] == w[|w| - 1];
      forall i | 0 <= i < |b| - 1 ensures !(b[i] == '-' && b[i + 1] == '-') {
        if i + 1 == |a| {
          assert b[i] == a[|a| - 1];
        } else if i + 1 > |a| {
          assert b[i + 1] == w[i - |a|];
        }
      }
    } else {
      assert JoinDash(words) == words[0];
    }
  }

  /** A slug with or without one more dash is trimmed to the slug. */
  lemma TrimSlug(slug: string, tail: string)
    requires IsSlug(slug) && (tail == "" || tail == "-")
    ensures Trim(slug + tail, Dashes) == slug
  {
    TrimClean(slug, Dashes);
    assert slug + "" == slug && (slug + tail)[0] == slug[0];
    assert TrimLeft(slug + tail, Dashes) == slug + tail && TrimLeft(slug, Dashes) == slug;
    TrimRightSkips(slug, tail, Dashes);
  }

  /** The slug is the title's words joined by single dashes, or `goal` if there
      is none, and always has the shape of a slug. */
  lemma SlugIsItsWords(title: string, lower: char -> char)
    ensures var words := Words(Pieces(LowerBy(TrimSpace(title), lower)));
            Slugified(title, lower) == if words == [] then "goal" else JoinDash(words)
    ensures IsSlug(Slugified(title, lower))
  {
    TrimmedScan(LowerBy(TrimSpace(title), lower));
  }

  lemma TrimmedScan(s: string)
    ensures var words := Words(Pieces(s));
            if words == [] then Trim(Scan(s), Dashes) == ""
            else Trim(Scan(s), Dashes) == JoinDash(words) && IsSlug(JoinDash(words))
  {
    var r := Pieces(s);
    ScanJoins(s);
    if Words(r) == [] {
      assert Trim("", Dashes) == "";
    } else {
      JoinEnds(Words(r));
      TrimSlug(JoinDash(Words(r)), if r[|r| - 1] == "" then "-" else "");
    }
  }

  /** A small letter or a digit, by its code. */
  predicate Plain(c: char) {
    97 <= c as int <= 122 || 48 <= c as int <= 57
  }

  lemma {:induction false} PiecesOfPlain(s: string, w: string)
    requires forall i | 0 <= i < |w| :: Plain(w[i])
    ensures Pieces(s + w) == Pieces(s)[|Pieces(s)| - 1 := Pieces(s)[|Pieces(s)| - 1] + w]
    decreases |w|
  {
    var r := Pieces(s);
    var m := |r| - 1;
    if w == "" {
      assert s + w == s && r[m] + w == r[m];
    } else {
      var init, c := w[..|w| - 1], w[|w| - 1];
      PiecesOfPlain(s, init);
      assert (s + w)[..|s + w| - 1] == s + init && (s + w)[|s + w| - 1] == c && IsKept(c);
      assert (r[m] + init) + [c] == r[m] + w;
    }
  }

  /** What stands between two plain words: a blank, dash, underscore, slash or dot
      becomes a dash, a small letter or digit stays, anything else disappears. */
  lemma SlugOfTwo(a: string, c: char, b: string, lower: char -> char)
    requires a != "" && b != "" && (forall i | 0 <= i < |a| :: Plain(a[i])) && (forall i | 0 <= i < |b| :: Plain(b[i]))
    requires forall d | Plain(d) || d == c :: lower(d) == d
    ensures c in " -_/." ==> Slugified(a + [c] + b, lower) == a + "-" + b
    ensures c !in " -_/." && !Plain(c) ==> Slugified(a + [c] + b, lower) == a + b
    ensures Plain(c) ==> Slugified(a + [c] + b, lower) == a + [c] + b
  {
    var s := a + [c] + b;
    UntouchedEnds(a, c, b, lower);
    PiecesOfTwo(a, c, b);
    if IsSeparator(c) {
      TwoWords(a, b);
      SlugOfPieces(s, lower, [a, b]);
    } else if IsKept(c) {
      OneWord(s);
      SlugOfPieces(s, lower, [s]);
    } else {
      OneWord(a + b);
      SlugOfPieces(s, lower, [a + b]);
    }
    SeparatorCodes(c);
  }

  lemma SeparatorCodes(c: char)
    ensures c in " -_/." <==> IsSeparator(c)
    ensures Plain(c) <==> IsKept(c)
  {
  }

  lemma UntouchedEnds(a: string, c: char, b: string, lower: char -> char)
    requires a != "" && b != "" && (forall i | 0 <= i < |a| :: Plain(a[i])) && (forall i | 0 <= i < |b| :: Plain(b[i]))
    requires forall d | Plain(d) || d == c :: lower(d) == d
    ensures TrimSpace(a + [c] + b) == a + [c] + b
    ensures LowerBy(a + [c] + b, lower) == a + [c] + b
  {
    var s := a + [c] + b;
    assert s[0] == a[0] && s[|s| - 1] == b[|b| - 1];
    TrimClean(s, Blanks);
    forall i | 0 <= i < |s| ensures lower(s[i]) == s[i] {
      assert s[i] == if i < |a| then a[i] else if i == |a| then c else b[i - |a| - 1];
    }
  }

  lemma SlugOfPieces(s: string, lower: char -> char, pieces: seq<string>)
    requires TrimSpace(s) == s && LowerBy(s, lower) == s && Pieces(s) == pieces && Words(pieces) != []
    ensures Slugified(s, lower) == JoinDash(Words(pieces))
  {
    SlugIsItsWords(s, lower);
  }

  lemma PiecesStep(s: string, c: char)
    ensures var r := Pieces(s);
            Pieces(s + [c]) == if IsKept(c) then r[|r| - 1 := r[|r| - 1] + [c]] else if IsSeparator(c) then r + [""] else r
  {
    assert (s + [c])[..|s|] == s;
  }

  lemma PiecesOfTwo(a: string, c: char, b: string)
    requires (forall i | 0 <= i < |a| :: Plain(a[i])) && (forall i | 0 <= i < |b| :: Plain(b[i]))
    ensures Pieces(a + [c] + b) == if IsSeparator(c) then [a, b] else if IsKept(c) then [a + [c] + b] else [a + b]
  {
    assert Pieces("") == [""];
    PiecesOfPlain("", a);
    assert "" + a == a;
    PiecesStep(a, c);
    PiecesOfPlain(a + [c], b);
    LastOf(a, c, b);
  }

  lemma LastOf(a: string, c: char, b: string)
    ensures [""][0 := "" + a] == [a]
    ensures [a] + [""] == [a, ""] && [a, ""][1 := "" + b] == [a, b]
    ensures [a][0 := a + [c]] == [a + [c]] && [a + [c]][0 := (a + [c]) + b] == [a + [c] + b]
    ensures [a][0 := a + b] == [a + b]
  {
    assert "" + a == a && "" + b == b;
  }

  lemma OneWord(w: string)
    requires w != ""
    ensures Words([w]) == [w] && JoinDash([w]) == w
  {
    assert [w][..0] == [];
  }

  lemma TwoWords(a: string, b: string)
    requires a != "" && b != ""
    ensures Words([a, b]) == [a, b] && JoinDash([a, b]) == a + "-" + b
  {
    OneWord(a);
    assert [a, b][..1] == [a];
  }

  /** No leading and no double dash: what every prefix of a slug satisfies. */
  ghost predicate SlugPrefix(s: string) {
    && (forall i | 0 <= i < |s| :: IsSlugChar(s[i]))
    && (s != "" ==> s[0] != '-')
    && (forall i | 0 <= i < |s| - 1 :: s[i] == '-' ==> s[i + 1] != '-')
  }

  lemma {:induction false} ScanKeepsSlug(s: string)
    requires SlugPrefix(s)
    ensures Scan(s) == s
    decreases |s|
  {
    if s != "" {
      var m := |s| - 1;
      var init := s[..m];
      assert SlugPrefix(init) by {
        assert forall i | 0 <= i < m :: init[i] == s[i];
      }
      ScanKeepsSlug(init);
      assert EndsInDash(init) ==> s[m - 1] == '-' && s[m] != '-';
      assert s == init + [s[m]];
    }
  }

  /** Making a slug of a slug changes nothing. */
  lemma SlugIdempotent(s: string, lower: char -> char)
    requires IsSlug(s) && forall c :: IsSlugChar(c) ==> lower(c) == c
    ensures Slugified(s, lower) == s
  {
    assert Clean(s, Blanks) && Clean(s, Dashes);
    TrimClean(s, Blanks);
    TrimClean(s, Dashes);
    assert LowerBy(s, lower) == s;
    ScanKeepsSlug(s);
  }

  /** The loop over the runes of the lowered title. */
  method Slugify(title: string, lower: char -> char) returns (out: string)
    ensures out == Slugified(title, lower) && IsSlug(out)
  {
    var s := LowerBy(TrimSpace(title), lower);
    var b := "";
    var prevDash := false;
    for i := 0 to |s|
      invariant b == Scan(s[..i]) && prevDash == EndsInDash(b)
    {
      assert s[..i + 1][..i] == s[..i];
      var c := s[i];
      if IsKept(c) {
        b := b + [c];
        prevDash := false;
      } else if c == ' ' || c == '-' || c == '_' || c == '/' || c == '.' {
        if !prevDash && |b| > 0 {
          b := b + "-";
          prevDash := true;
        }
      }
    }
    assert s[..|s|] == s;
    out := Trim(b, Dashes);
    if out == "" {
      out := "goal";
    }
    SlugIsItsWords(title, lower);
  }

  // ------------------------------------------------------- collisions

  /** The first try is the bare slug, the later ones carry a number. */
  function Candidate(base: string, i: nat): string {
    if i <= 1 then base else base + "-" + Decimal(i)
  }

  /** A numbered slug is a slug, and its channel name matches the channel pattern. */
  lemma CandidateIsSlug(base: string, i: nat)
    requires IsSlug(base)
    ensures IsSlug(Candidate(base, i))
    ensures MatchesPattern("goal-" + Candidate(base, i))
  {
    var s := Candidate(base, i);
    if i > 1 {
      var d := Decimal(i);
      assert s == base + "-" + d;
      forall k | 0 <= k < |s| ensures IsSlugChar(s[k]) {
        if k > |base| {
          assert s[k] == d[k - |base| - 1];
        }
      }
      forall k | 0 <= k < |s| - 1 ensures !(s[k] == '-' && s[k + 1] == '-') {
        if k >= |base| {
          assert s[k + 1] == d[k - |base|];
        } else if k + 1 == |base| {
          assert s[k] == base[|base| - 1];
        }
      }
    }
    var name := "goal-" + s;
    forall k | 0 <= k < |name| ensures NameChar(name[k]) {
      if k >= 5 {
        assert name[k] == s[k - 5] && IsSlugChar(s[k - 5]);
      }
    }
  }

  /** The first candidate that is free, counting from the bare slug; after
      ninety-eight taken ones the ninety-ninth, free or not. */
  ghost predicate FirstFree(taken: set<string>, base: string, i: nat) {
    && 1 <= i <= 99
    && (forall j | 1 <= j < i :: Candidate(base, j) in taken)
    && (i < 99 ==> Candidate(base, i) !in taken)
  }

  /** No number is tried under the name of another. */
  lemma CandidatesDiffer(base: string, i: nat, j: nat)
    requires 1 <= i < j
    ensures Candidate(base, i) != Candidate(base, j)
  {
    DecimalReads(i);
    DecimalReads(j);
    assert |Candidate(base, j)| > |base|;
    assert Candidate(base, j)[|base| + 1..] == Decimal(j);
    if i > 1 {
      assert Candidate(base, i)[|base| + 1..] == Decimal(i);
    }
  }

  /** The choice is forced. */
  lemma FirstFreeUnique(taken: set<string>, base: string, i: nat, j: nat)
    requires FirstFree(taken, base, i) && FirstFree(taken, base, j)
    ensures i == j
  {
    assert i < j ==> Candidate(base, i) in taken;
    assert j < i ==> Candidate(base, j) in taken;
  }

  method PickSlug(taken: set<string>, base: string) returns (slug: string, at: nat)
    ensures FirstFree(taken, base, at) && slug == Candidate(base, at)
    ensures 1 <= at <= 99 && slug == if at == 1 then base else base + "-" + Decimal(at)
    ensures (at < 99 ==> slug !in taken) && (at > 1 ==> base in taken)
    ensures forall j {:trigger Decimal(j)} | 2 <= j < at :: base + "-" + Decimal(j) in taken
  {
    slug := base;
    at := 1;
    var i := 2;
    while i < 100
      invariant 2 <= i <= 100 && at == i - 1 && slug == Candidate(base, at)
      invariant forall j | 1 <= j < at :: Candidate(base, j) in taken
    {
      if slug !in taken {
        break;
      }
      slug := base + "-" + Decimal(i);
      at := i;
      i := i + 1;
    }
    assert at > 1 ==> Candidate(base, 1) in taken;
    forall j | 2 <= j < at ensures base + "-" + Decimal(j) in taken {
      assert Candidate(base, j) in taken;
    }
  }
}
