/** BM25 search over the action catalogue: internal/actions/index.go, with reals for float64. */
module Bm25 {
  import opened Text

  datatype Param = Param(name: string, description: string)

  datatype Action = Action(name: string, category: string, description: string, params: seq<Param>)

  datatype Index = Index(actions: seq<Action>, docs: seq<seq<string>>, idf: map<string, real>, avgDL: real)

  /** A result names a document by its position. */
  datatype Hit = Hit(doc: nat, score: real)

  // ------------------------------------------------------- tokens

  /** A character that follows here would start a new field. */
  predicate Starts(s: string) {
    s == "" || IsSpace(s[|s| - 1])
  }

  function Grown(f: seq<string>, starts: bool, c: char): seq<string>
    requires starts || f != []
  {
    if starts then f + [[c]] else f[|f| - 1 := f[|f| - 1] + [c]]
  }

  /** strings.Fields: the maximal runs of non-blank characters. */
  function Fields(s: string): (f: seq<string>)
    ensures !Starts(s) ==> f != []
  {
    if s == "" then []
    else
      var init, c := s[..|s| - 1], s[|s| - 1];
      if IsSpace(c) then Fields(init) else Grown(Fields(init), Starts(init), c)
  }

  /** A text without blanks is one field, an empty one none. */
  lemma {:induction false} FieldsOfWord(w: string)
    requires forall i | 0 <= i < |w| :: !IsSpace(w[i])
    ensures Fields(w) == if w == "" then [] else [w]
    decreases |w|
  {
    if w != "" {
      FieldsOfWord(w[..|w| - 1]);
      assert w == w[..|w| - 1] + [w[|w| - 1]];
    }
  }

  lemma FieldsSnoc(s: string, c: char)
    ensures Fields(s + [c]) == if IsSpace(c) then Fields(s) else Grown(Fields(s), Starts(s), c)
  {
    assert (s + [c])[..|s|] == s;
  }

  lemma GrownLast(a: seq<string>, b: seq<string>, starts: bool, c: char)
    requires starts || b != []
    ensures Grown(a + b, starts, c) == a + Grown(b, starts, c)
  {
  }

  /** A blank anywhere separates: with the word case this determines the fields of every text. */
  lemma {:induction false} FieldsAtBlank(a: string, c: char, b: string)
    requires IsSpace(c)
    ensures Fields(a + [c] + b) == Fields(a) + Fields(b)
    decreases |b|
  {
    if b == "" {
      assert a + [c] + b == a + [c];
      FieldsSnoc(a, c);
    } else {
      var init, d := b[..|b| - 1], b[|b| - 1];
      var front := a + [c] + init;
      FieldsAtBlank(a, c, init);
      assert b == init + [d] && a + [c] + b == front + [d];
      StartsBehind(a, c, init);
      FieldsSnoc(front, d);
      FieldsSnoc(init, d);
      GrownLast(Fields(a), Fields(init), Starts(init), d);
    }
  }

  lemma StartsBehind(a: string, c: char, init: string)
    requires IsSpace(c)
    ensures Starts(a + [c] + init) == Starts(init)
  {
    var front := a + [c] + init;
    assert front[|front| - 1] == if init == "" then c else init[|init| - 1];
  }

  function SplitOn(s: string, sep: char): (r: seq<string>)
    ensures r != []
  {
    if s == "" then [""]
    else
      var r, c := SplitOn(s[..|s| - 1], sep), s[|s| - 1];
      if c == sep then r + [""] else r[|r| - 1 := r[|r| - 1] + [c]]
  }

  function JoinOn(parts: seq<string>, sep: char): string
    requires parts != []
  {
    if |parts| == 1 then parts[0] else JoinOn(parts[..|parts| - 1], sep) + [sep] + parts[|parts| - 1]
  }

  /** The parts have no separator left in them, and joining them gives the text back. */
  lemma {:induction false} SplitOnJoins(s: string, sep: char)
    ensures JoinOn(SplitOn(s, sep), sep) == s
    ensures forall k | 0 <= k < |SplitOn(s, sep)| :: sep !in SplitOn(s, sep)[k]
    decreases |s|
  {
    if s != "" {
      var init, c := s[..|s| - 1], s[|s| - 1];
      var r := SplitOn(init, sep);
      var m := |r| - 1;
      SplitOnJoins(init, sep);
      assert s == init + [c];
      if c == sep {
        assert (r + [""])[..|r|] == r;
      } else {
        assert r[m := r[m] + [c]][..m] == r[..m];
      }
    }
  }

  /** A word, followed by its parts if it is a compound. */
  function Expand(word: string): seq<string> {
    [word] + (if '_' in word then SplitOn(word, '_') else []) + (if '-' in word then SplitOn(word, '-') else [])
  }

  function ExpandAll(words: seq<string>): seq<string> {
    if words == [] then [] else ExpandAll(words[..|words| - 1]) + Expand(words[|words| - 1])
  }

  function ParamWords(params: seq<Param>, lower: char -> char): seq<string> {
    if params == [] then []
    else
      var p := params[|params| - 1];
      ParamWords(params[..|params| - 1], lower) + Fields(LowerBy(p.name, lower)) + Fields(LowerBy(p.description, lower))
  }

  function WordsOf(a: Action, lower: char -> char): seq<string> {
    Fields(LowerBy(a.name, lower)) + Fields(LowerBy(a.category, lower)) + Fields(LowerBy(a.description, lower))
    + ParamWords(a.params, lower)
  }

  function Tokens(a: Action, lower: char -> char): seq<string> {
    ExpandAll(WordsOf(a, lower))
  }

  // ------------------------------------------------------- what the tokens count

  /** How often a word yields a token: once if it is the token, and once for each such part. */
  function Gives(word: string, t: string): nat {
    (if word == t then 1 else 0)
    + (if '_' in word then Count(SplitOn(word, '_'), t) else 0)
    + (if '-' in word then Count(SplitOn(word, '-'), t) else 0)
  }

  function GivesAll(words: seq<string>, t: string): nat {
    if words == [] then 0 else GivesAll(words[..|words| - 1], t) + Gives(words[|words| - 1], t)
  }

  function InText(text: string, lower: char -> char, t: string): nat {
    GivesAll(Fields(LowerBy(text, lower)), t)
  }

  function InParams(params: seq<Param>, lower: char -> char, t: string): nat {
    if params == [] then 0
    else
      var p := params[|params| - 1];
      InParams(params[..|params| - 1], lower, t) + InText(p.name, lower, t) + InText(p.description, lower, t)
  }

  /** Each text of the action counts once. */
  ghost predicate CountsTexts(a: Action, lower: char -> char, tokens: seq<string>) {
    forall t :: Count(tokens, t)
             == InText(a.name, lower, t) + InText(a.category, lower, t) + InText(a.description, lower, t)
                + InParams(a.params, lower, t)
  }

  lemma CountAdds(a: seq<string>, b: seq<string>, t: string)
    ensures Count(a + b, t) == Count(a, t) + Count(b, t)
  {
  }

  lemma CountExpand(word: string, t: string)
    ensures Count(Expand(word), t) == Gives(word, t)
  {
    var dashed := if '-' in word then SplitOn(word, '-') else [];
    var scored := if '_' in word then SplitOn(word, '_') else [];
    CountAdds([word] + scored, dashed, t);
    CountAdds([word], scored, t);
  }

  lemma {:induction false} CountExpandAll(words: seq<string>, t: string)
    ensures Count(ExpandAll(words), t) == GivesAll(words, t)
    decreases |words|
  {
    if words != [] {
      var init, last := words[..|words| - 1], words[|words| - 1];
      CountExpandAll(init, t);
      CountExpand(last, t);
      CountAdds(ExpandAll(init), Expand(last), t);
    }
  }

  lemma {:induction false} GivesAdds(a: seq<string>, b: seq<string>, t: string)
    ensures GivesAll(a + b, t) == GivesAll(a, t) + GivesAll(b, t)
    decreases |b|
  {
    if b == [] {
      assert a + b == a;
    } else {
      assert (a + b)[..|a + b| - 1] == a + b[..|b| - 1];
      GivesAdds(a, b[..|b| - 1], t);
    }
  }

  lemma {:induction false} ParamWordsGive(params: seq<Param>, lower: char -> char, t: string)
    ensures GivesAll(ParamWords(params, lower), t) == InParams(params, lower, t)
    decreases |params|
  {
    if params != [] {
      var init, p := params[..|params| - 1], params[|params| - 1];
      var before, name := ParamWords(init, lower), Fields(LowerBy(p.name, lower));
      ParamWordsGive(init, lower, t);
      GivesAdds(before, name, t);
      GivesAdds(before + name, Fields(LowerBy(p.description, lower)), t);
    }
  }

  /** How often an action has a token: the sum over its name, category, description and parameters. */
  lemma TokensCount(a: Action, lower: char -> char)
    ensures CountsTexts(a, lower, Tokens(a, lower))
  {
    var name, category := Fields(LowerBy(a.name, lower)), Fields(LowerBy(a.category, lower));
    var description, params := Fields(LowerBy(a.description, lower)), ParamWords(a.params, lower);
    forall t
      ensures Count(Tokens(a, lower), t)
           == InText(a.name, lower, t) + InText(a.category, lower, t) + InText(a.description, lower, t)
              + InParams(a.params, lower, t)
    {
      CountExpandAll(WordsOf(a, lower), t);
      GivesAdds(name + category + description, params, t);
      GivesAdds(name + category, description, t);
      GivesAdds(name, category, t);
      ParamWordsGive(a.params, lower, t);
    }
  }

  /** Every part of a compound word behind the word. */
  method ExpandWords(parts: seq<string>) returns (expanded: seq<string>)
    ensures expanded == ExpandAll(parts)
  {
    expanded := [];
    for i := 0 to |parts|
      invariant expanded == ExpandAll(parts[..i])
    {
      assert parts[..i + 1][..i] == parts[..i];
      ghost var before, p := expanded, parts[i];
      expanded := expanded + [parts[i]];
      if '_' in parts[i] {
        expanded := expanded + SplitOn(parts[i], '_');
      }
      if '-' in parts[i] {
        expanded := expanded + SplitOn(parts[i], '-');
      }
      assert expanded == before + Expand(p);
    }
    assert parts[..|parts|] == parts;
  }

  /** The loops over an action's texts and over the words found in them. */
  method Tokenize(a: Action, lower: char -> char) returns (expanded: seq<string>)
    ensures expanded == Tokens(a, lower)
    ensures CountsTexts(a, lower, expanded)
  {
    var parts := Fields(LowerBy(a.name, lower));
    parts := parts + Fields(LowerBy(a.category, lower));
    parts := parts + Fields(LowerBy(a.description, lower));
    ghost var head := parts;
    for i := 0 to |a.params|
      invariant parts == head + ParamWords(a.params[..i], lower)
    {
      assert a.params[..i + 1][..i] == a.params[..i];
      var name, description := Fields(LowerBy(a.params[i].name, lower)), Fields(LowerBy(a.params[i].description, lower));
      JoinLast(head, ParamWords(a.params[..i], lower), name, description);
      parts := parts + name + description;
    }
    assert a.params[..|a.params|] == a.params;
    expanded := ExpandWords(parts);
    TokensCount(a, lower);
  }

  lemma JoinLast(a: seq<string>, b: seq<string>, c: seq<string>, d: seq<string>)
    ensures (a + b) + c + d == a + (b + c + d)
  {
  }

  /** `t` is the word itself or a part of it between dashes or underscores. */
  predicate ComesFrom(t: string, word: string) {
    t == word || ('_' in word && t in SplitOn(word, '_')) || ('-' in word && t in SplitOn(word, '-'))
  }

  /** The tokens are the words and the parts of the compound words, and nothing else. */
  lemma {:induction false} TokensAreWordsAndParts(words: seq<string>, t: string)
    ensures t in ExpandAll(words) <==> exists w :: w in words && ComesFrom(t, w)
    decreases |words|
  {
    if words != [] {
      var init, last := words[..|words| - 1], words[|words| - 1];
      assert words == init + [last];
      TokensAreWordsAndParts(init, t);
      assert t in Expand(last) <==> ComesFrom(t, last);
    }
  }

  // ------------------------------------------------------- counting

  function Count(tokens: seq<string>, t: string): nat {
    multiset(tokens)[t]
  }

  /** The documents a term occurs in. */
  function Containing(docs: seq<seq<string>>, t: string): set<nat> {
    set i: nat | i < |docs| && t in docs[i]
  }

  function TotalLength(docs: seq<seq<string>>): nat {
    if docs == [] then 0 else TotalLength(docs[..|docs| - 1]) + |docs[|docs| - 1]|
  }

  method TermFrequency(tokens: seq<string>) returns (tf: map<string, nat>)
    ensures forall t :: t in tf <==> t in tokens
    ensures forall t | t in tf :: tf[t] == Count(tokens, t)
  {
    tf := map[];
    for i := 0 to |tokens|
      invariant forall t :: t in tf <==> t in tokens[..i]
      invariant forall t | t in tf :: tf[t] == Count(tokens[..i], t)
    {
      assert tokens[..i + 1] == tokens[..i] + [tokens[i]];
      var t := tokens[i];
      tf := tf[t := (if t in tf then tf[t] else 0) + 1];
    }
    assert tokens[..|tokens|] == tokens;
  }

  /** One document's terms, each counted once. */
  method CountDocument(df: map<string, nat>, tokens: seq<string>) returns (out: map<string, nat>)
    ensures forall t :: t in out <==> t in df || t in tokens
    ensures forall t | t in out :: out[t] == (if t in df then df[t] else 0) + if t in tokens then 1 else 0
  {
    out := df;
    var seen: set<string> := {};
    for i := 0 to |tokens|
      invariant forall t :: t in seen <==> t in tokens[..i]
      invariant forall t :: t in out <==> t in df || t in seen
      invariant forall t | t in out :: out[t] == (if t in df then df[t] else 0) + if t in seen then 1 else 0
    {
      assert tokens[..i + 1] == tokens[..i] + [tokens[i]];
      var t := tokens[i];
      if t !in seen {
        out := out[t := (if t in out then out[t] else 0) + 1];
        seen := seen + {t};
      }
    }
    assert tokens[..|tokens|] == tokens;
  }

  /** An index is right for its documents. */
  ghost predicate Right(idx: Index, log: real -> real) {
    && |idx.actions| == |idx.docs|
    && idx.avgDL == AverageLength(idx.docs, TotalLength(idx.docs))
    && (forall t :: t in idx.idf <==> exists i :: 0 <= i < |idx.docs| && t in idx.docs[i])
    && (forall t | t in idx.idf :: idx.idf[t] == IdfFor(|idx.docs|, |Containing(idx.docs, t)|, log))
  }

  /** Positive above one, as the logarithm is. */
  ghost predicate LogLike(log: real -> real) {
    forall x: real {:trigger log(x)} :: x > 1.0 ==> log(x) > 0.0
  }

  lemma ContainingSnoc(docs: seq<seq<string>>, tokens: seq<string>, t: string)
    ensures |Containing(docs + [tokens], t)| == |Containing(docs, t)| + if t in tokens then 1 else 0
    ensures |Containing(docs, t)| > 0 <==> exists i :: 0 <= i < |docs| && t in docs[i]
  {
    var more := docs + [tokens];
    assert Containing(more, t) == Containing(docs, t) + if t in tokens then {|docs|} else {};
    if exists i :: 0 <= i < |docs| && t in docs[i] {
      var i :| 0 <= i < |docs| && t in docs[i];
      assert i in Containing(docs, t);
    }
    if |Containing(docs, t)| > 0 {
      var i :| i in Containing(docs, t);
      assert 0 <= i < |docs| && t in docs[i];
    }
  }

  lemma {:induction false} AtMostAll(docs: seq<seq<string>>, t: string)
    ensures |Containing(docs, t)| <= |docs|
    decreases |docs|
  {
    if docs != [] {
      AtMostAll(docs[..|docs| - 1], t);
      ContainingSnoc(docs[..|docs| - 1], docs[|docs| - 1], t);
      assert docs == docs[..|docs| - 1] + [docs[|docs| - 1]];
    }
  }

  /** `df` maps exactly the terms that occur to the number of documents they occur in. */
  ghost predicate Frequencies(df: map<string, nat>, docs: seq<seq<string>>) {
    && (forall t {:trigger t in df} :: t in df <==> |Containing(docs, t)| > 0)
    && (forall t {:trigger df[t]} | t in df :: df[t] == |Containing(docs, t)|)
  }

  lemma FrequenciesSnoc(df: map<string, nat>, docs: seq<seq<string>>, tokens: seq<string>, out: map<string, nat>)
    requires Frequencies(df, docs)
    requires forall t :: t in out <==> t in df || t in tokens
    requires forall t | t in out :: out[t] == (if t in df then df[t] else 0) + if t in tokens then 1 else 0
    ensures Frequencies(out, docs + [tokens])
  {
    forall t ensures t in out <==> |Containing(docs + [tokens], t)| > 0 {
      ContainingSnoc(docs, tokens, t);
      assert t in df <==> |Containing(docs, t)| > 0;
    }
    forall t | t in out ensures out[t] == |Containing(docs + [tokens], t)| {
      ContainingSnoc(docs, tokens, t);
      assert t in df <==> |Containing(docs, t)| > 0;
    }
  }

  lemma TotalLengthSnoc(docs: seq<seq<string>>, tokens: seq<string>)
    ensures TotalLength(docs + [tokens]) == TotalLength(docs) + |tokens|
  {
    assert (docs + [tokens])[..|docs|] == docs;
  }

  /** What has been gathered after the first `n` actions. */
  ghost predicate Indexed(actions: seq<Action>, lower: char -> char, n: nat, docs: seq<seq<string>>,
                          df: map<string, nat>, totalLen: nat) {
    && n <= |actions| && |docs| == n && (forall j | 0 <= j < n :: docs[j] == Tokens(actions[j], lower))
    && totalLen == TotalLength(docs) && Frequencies(df, docs)
  }

  lemma IndexedNext(actions: seq<Action>, lower: char -> char, n: nat, docs: seq<seq<string>>, df: map<string, nat>,
                    totalLen: nat, tokens: seq<string>, out: map<string, nat>)
    requires Indexed(actions, lower, n, docs, df, totalLen) && n < |actions| && tokens == Tokens(actions[n], lower)
    requires Frequencies(out, docs + [tokens])
    ensures Indexed(actions, lower, n + 1, docs + [tokens], out, totalLen + |tokens|)
  {
    TotalLengthSnoc(docs, tokens);
  }

  /** The loop over the actions: each document frequency is the number of documents with the term. */
  method IndexDocuments(actions: seq<Action>, lower: char -> char)
    returns (docs: seq<seq<string>>, df: map<string, nat>, totalLen: nat)
    ensures Indexed(actions, lower, |actions|, docs, df, totalLen)
  {
    docs, df, totalLen := [], map[], 0;
    for i := 0 to |actions|
      invariant Indexed(actions, lower, i, docs, df, totalLen)
    {
      var tokens := Tokenize(actions[i], lower);
      var out := CountDocument(df, tokens);
      FrequenciesSnoc(df, docs, tokens, out);
      IndexedNext(actions, lower, i, docs, df, totalLen, tokens, out);
      docs, df, totalLen := docs + [tokens], out, totalLen + |tokens|;
    }
  }

  /** Builds the index from the counts. */
  method NewIndex(actions: seq<Action>, lower: char -> char, log: real -> real) returns (idx: Index)
    ensures Right(idx, log) && idx.actions == actions
    ensures forall i | 0 <= i < |actions| :: idx.docs[i] == Tokens(actions[i], lower)
    ensures IdfsAre(idx, log)
    ensures AverageIs(idx)
  {
    var docs, df, totalLen := IndexDocuments(actions, lower);
    BuildsRight(actions, docs, df, log);
    idx := Index(actions, docs, IdfTable(docs, df, log), AverageLength(docs, totalLen));
    RightIdfs(idx, log);
    RightAverage(idx, log);
  }

  function AverageLength(docs: seq<seq<string>>, totalLen: nat): real {
    if |docs| > 0 then totalLen as real / |docs| as real else 0.0
  }

  function IdfFor(n: nat, df: nat, log: real -> real): real {
    log(1.0 + (n as real - df as real + 0.5) / (df as real + 0.5))
  }

  function IdfTable(docs: seq<seq<string>>, df: map<string, nat>, log: real -> real): map<string, real> {
    map t | t in df :: IdfFor(|docs|, df[t], log)
  }

  lemma BuildsRight(actions: seq<Action>, docs: seq<seq<string>>, df: map<string, nat>, log: real -> real)
    requires |actions| == |docs| && Frequencies(df, docs)
    ensures Right(Index(actions, docs, IdfTable(docs, df, log), AverageLength(docs, TotalLength(docs))), log)
  {
    var idf := IdfTable(docs, df, log);
    forall t ensures t in idf <==> exists i :: 0 <= i < |docs| && t in docs[i] {
      ContainingSnoc(docs, [], t);
      assert t in idf <==> t in df;
    }
    forall t | t in idf ensures idf[t] == IdfFor(|docs|, |Containing(docs, t)|, log) {
      assert df[t] == |Containing(docs, t)|;
    }
  }

  /** The idf of a term in `c` of `n` documents is the logarithm of (n + 1) / (c + 1/2). */
  ghost predicate IdfIs(idx: Index, log: real -> real, t: string)
    requires t in idx.idf
  {
    exists x: real {:trigger log(x)} ::
      idx.idf[t] == log(x) && Solves(x, |set i: nat | i < |idx.docs| && t in idx.docs[i]|, |idx.docs|)
  }

  /** x is (n + 1) / (c + 1/2). */
  predicate Solves(x: real, c: nat, n: nat) {
    x * (c as real + 0.5) == n as real + 1.0
  }

  lemma IdfArgument(n: nat, c: nat, log: real -> real) returns (x: real)
    ensures IdfFor(n, c, log) == log(x) && Solves(x, c, n)
  {
    var d := c as real + 0.5;
    var q := (n as real - c as real + 0.5) / d;
    x := 1.0 + q;
    assert q * d == n as real - c as real + 0.5;
    assert x * d == d + q * d;
  }

  lemma RightIdf(idx: Index, log: real -> real, t: string)
    requires Right(idx, log) && t in idx.idf
    ensures IdfIs(idx, log, t)
  {
    var x := IdfArgument(|idx.docs|, |Containing(idx.docs, t)|, log);
    assert Containing(idx.docs, t) == set i: nat | i < |idx.docs| && t in idx.docs[i];
    assert log(x) == idx.idf[t];
  }

  ghost predicate IdfsAre(idx: Index, log: real -> real) {
    forall t {:trigger IdfIs(idx, log, t)} | t in idx.idf :: IdfIs(idx, log, t)
  }

  lemma RightIdfs(idx: Index, log: real -> real)
    requires Right(idx, log)
    ensures IdfsAre(idx, log)
  {
    forall t | t in idx.idf ensures IdfIs(idx, log, t) {
      RightIdf(idx, log, t);
    }
  }

  /** The average length times the number of documents is the total length. */
  ghost predicate AverageIs(idx: Index) {
    Times(idx.avgDL, |idx.docs|) == TotalLength(idx.docs) as real
  }

  function Times(x: real, n: nat): real {
    x * n as real
  }

  lemma Mean(total: nat, n: nat)
    requires n > 0
    ensures Times(total as real / n as real, n) == total as real
  {
    Quotient(total as real, n as real);
  }

  lemma RightAverage(idx: Index, log: real -> real)
    requires Right(idx, log)
    ensures AverageIs(idx)
  {
    if idx.docs != [] {
      Mean(TotalLength(idx.docs), |idx.docs|);
    }
  }

  ghost predicate Rises(log: real -> real) {
    forall x: real, y: real {:trigger log(x), log(y)} :: x < y ==> log(x) < log(y)
  }

  lemma Divided(x: real, y: real, c: real, d: real, total: real)
    requires 0.0 < c < d && total > 0.0 && x * c == total && y * d == total
    ensures x > y
  {
    PositiveFactor(y, d);
    Product(y, d - c);
    assert (y - x) * c + y * (d - c) == y * d - x * c;
    if x <= y {
      NonNegative(y - x, c);
    }
  }

  lemma PositiveFactor(y: real, d: real)
    requires d > 0.0 && y * d > 0.0
    ensures y > 0.0
  {
    if y <= 0.0 {
      NonNegative(-y, d);
    }
  }

  lemma IdfFalls(n: nat, c: nat, d: nat, log: real -> real)
    requires Rises(log) && c < d
    ensures IdfFor(n, c, log) > IdfFor(n, d, log)
  {
    var x := IdfArgument(n, c, log);
    var y := IdfArgument(n, d, log);
    Divided(x, y, c as real + 0.5, d as real + 0.5, n as real + 1.0);
  }

  /** With a rising logarithm the rarer of two terms has the larger idf. */
  lemma RarerIsLarger(idx: Index, log: real -> real, t: string, u: string)
    requires Right(idx, log) && Rises(log) && t in idx.idf && u in idx.idf
    requires |Containing(idx.docs, t)| < |Containing(idx.docs, u)|
    ensures idx.idf[t] > idx.idf[u]
  {
    IdfFalls(|idx.docs|, |Containing(idx.docs, t)|, |Containing(idx.docs, u)|, log);
  }

  // ------------------------------------------------------- scores

  const K1 := 1.2
  const B := 0.75

  function IdfOf(idx: Index, t: string): real {
    if t in idx.idf then idx.idf[t] else 0.0
  }

  predicate Scorable(idx: Index, i: nat) {
    i < |idx.docs| && (idx.docs[i] != [] ==> idx.avgDL > 0.0)
  }

  lemma Quotient(a: real, b: real)
    requires b > 0.0
    ensures a > 0.0 ==> a / b > 0.0
    ensures a >= 0.0 ==> a / b >= 0.0
    ensures (a / b) * b == a
  {
  }

  function Denominator(freq: real, dl: real, avgDL: real): (r: real)
    requires freq >= 1.0 && dl >= 0.0 && avgDL > 0.0
    ensures r > freq
  {
    Quotient(B * dl, avgDL);
    freq + K1 * (1.0 - B + B * dl / avgDL)
  }

  /** What one query term adds to a document's score. */
  function Weight(idx: Index, i: nat, t: string): real
    requires Scorable(idx, i)
  {
    if t !in idx.docs[i] then 0.0
    else
      var freq := Count(idx.docs[i], t) as real;
      Saturated(IdfOf(idx, t), freq, Denominator(freq, |idx.docs[i]| as real, idx.avgDL))
  }

  function Saturated(idf: real, freq: real, den: real): real
    requires den > 0.0
  {
    idf * (freq * (K1 + 1.0)) / den
  }

  function Score(idx: Index, i: nat, query: seq<string>): real
    requires Scorable(idx, i)
  {
    if query == [] then 0.0 else Score(idx, i, query[..|query| - 1]) + Weight(idx, i, query[|query| - 1])
  }

  /** The query's words add up, and a repeated word counts again. */
  lemma {:induction false} ScoreAdds(idx: Index, i: nat, a: seq<string>, b: seq<string>)
    requires Scorable(idx, i)
    ensures Score(idx, i, a + b) == Score(idx, i, a) + Score(idx, i, b)
    ensures |a| == 1 ==> Score(idx, i, a) == Weight(idx, i, a[0])
    decreases |b|
  {
    if b == [] {
      assert a + b == a;
    } else {
      assert (a + b)[..|a + b| - 1] == a + b[..|b| - 1];
      ScoreAdds(idx, i, a, b[..|b| - 1]);
    }
    if |a| == 1 {
      assert Score(idx, i, a[..0]) == 0.0;
    }
  }

  function SumIdf(idx: Index, query: seq<string>): real {
    if query == [] then 0.0 else SumIdf(idx, query[..|query| - 1]) + IdfOf(idx, query[|query| - 1])
  }

  lemma {:induction false} LengthAtLeast(docs: seq<seq<string>>, i: nat)
    requires i < |docs|
    ensures |docs[i]| <= TotalLength(docs)
    decreases |docs|
  {
    if i < |docs| - 1 {
      LengthAtLeast(docs[..|docs| - 1], i);
    }
  }

  /** A document with any token at all has a positive average length to be compared with. */
  lemma RightScorable(idx: Index, log: real -> real, i: nat)
    requires Right(idx, log) && i < |idx.docs|
    ensures Scorable(idx, i)
  {
    LengthAtLeast(idx.docs, i);
    if idx.docs[i] != [] {
      Quotient(TotalLength(idx.docs) as real, |idx.docs| as real);
    }
  }

  lemma IdfForPositive(n: nat, df: nat, log: real -> real)
    requires LogLike(log) && df <= n
    ensures IdfFor(n, df, log) > 0.0
  {
    Quotient(n as real - df as real + 0.5, df as real + 0.5);
  }

  lemma IdfPositive(idx: Index, log: real -> real, t: string)
    requires Right(idx, log) && LogLike(log)
    ensures t in idx.idf ==> IdfOf(idx, t) > 0.0
    ensures IdfOf(idx, t) >= 0.0
  {
    if t in idx.idf {
      AtMostAll(idx.docs, t);
      IdfForPositive(|idx.docs|, |Containing(idx.docs, t)|, log);
    }
  }

  /** A term that occurs adds something, but less than 2.2 times its idf. */
  lemma WeightBounds(idx: Index, log: real -> real, i: nat, t: string)
    requires Right(idx, log) && LogLike(log) && Scorable(idx, i)
    ensures t in idx.docs[i] ==> 0.0 < Weight(idx, i, t) < 2.2 * IdfOf(idx, t)
    ensures t !in idx.docs[i] ==> Weight(idx, i, t) == 0.0
  {
    if t in idx.docs[i] {
      IdfPositive(idx, log, t);
      var freq := Count(idx.docs[i], t) as real;
      Saturates(IdfOf(idx, t), freq, Denominator(freq, |idx.docs[i]| as real, idx.avgDL));
    }
  }

  lemma Saturates(idf: real, freq: real, den: real)
    requires idf > 0.0 && freq >= 1.0 && den > freq
    ensures 0.0 < Saturated(idf, freq, den) < 2.2 * idf
  {
    var top := idf * (freq * (K1 + 1.0));
    Product(idf, freq * (K1 + 1.0));
    Product(idf, den - freq);
    assert 2.2 * idf * den == top + 2.2 * (idf * (den - freq));
    Quotient(top, den);
    BelowQuotient(top, den, 2.2 * idf);
  }

  lemma BelowQuotient(top: real, den: real, limit: real)
    requires den > 0.0 && top < limit * den
    ensures top / den < limit
  {
    var d := limit - top / den;
    assert d * den == limit * den - top;
    assert d > 0.0 by {
      if d <= 0.0 {
        NonNegative(-d, den);
      }
    }
  }

  lemma Product(a: real, b: real)
    requires a > 0.0 && b > 0.0
    ensures a * b > 0.0
  {
  }

  lemma NonNegative(a: real, b: real)
    requires a >= 0.0 && b >= 0.0
    ensures a * b >= 0.0
  {
  }

  /** The weight of a term that occurs `f` times in a document of length `dl`,
      without a quotient: the BM25 formula with k1 = 1.2 and b = 0.75. */
  lemma WeightExactly(idx: Index, i: nat, t: string)
    requires Scorable(idx, i) && t in idx.docs[i]
    ensures var f, dl := multiset(idx.docs[i])[t] as real, |idx.docs[i]| as real;
            Weight(idx, i, t) * (f * idx.avgDL + 1.2 * (0.25 * idx.avgDL + 0.75 * dl))
            == IdfOf(idx, t) * (f * 2.2) * idx.avgDL
  {
    var f, dl, a := multiset(idx.docs[i])[t] as real, |idx.docs[i]| as real, idx.avgDL;
    var den := Denominator(f, dl, a);
    DenominatorTimes(f, dl, a);
    var top := IdfOf(idx, t) * (f * 2.2);
    assert (top / den) * den == top;
    assert Weight(idx, i, t) == top / den;
    assert Weight(idx, i, t) * (den * a) == (Weight(idx, i, t) * den) * a;
  }

  lemma DenominatorTimes(f: real, dl: real, a: real)
    requires f >= 1.0 && dl >= 0.0 && a > 0.0
    ensures Denominator(f, dl, a) * a == f * a + 1.2 * (0.25 * a + 0.75 * dl)
  {
    var q := 0.75 * dl / a;
    assert q * a == 0.75 * dl;
    assert Denominator(f, dl, a) == f + 1.2 * (0.25 + q);
  }

  /** Of two documents of the same length the one with more occurrences of a term
      gets more for it, and of two with as many the shorter one. */
  lemma WeightOrder(idx: Index, i: nat, j: nat, t: string)
    requires Scorable(idx, i) && Scorable(idx, j) && t in idx.docs[i] && t in idx.docs[j] && IdfOf(idx, t) > 0.0
    ensures |idx.docs[i]| == |idx.docs[j]| && multiset(idx.docs[i])[t] < multiset(idx.docs[j])[t] ==>
              Weight(idx, i, t) < Weight(idx, j, t)
    ensures multiset(idx.docs[i])[t] == multiset(idx.docs[j])[t] && |idx.docs[i]| < |idx.docs[j]| ==>
              Weight(idx, i, t) > Weight(idx, j, t)
  {
    var f, g := multiset(idx.docs[i])[t], multiset(idx.docs[j])[t];
    var dl, el := |idx.docs[i]|, |idx.docs[j]|;
    if dl == el && f < g {
      MoreOften(IdfOf(idx, t), f as real, g as real, dl as real, idx.avgDL);
    }
    if f == g && dl < el {
      Longer(IdfOf(idx, t), f as real, dl as real, el as real, idx.avgDL);
    }
  }

  lemma MoreOften(idf: real, f: real, g: real, dl: real, a: real)
    requires idf > 0.0 && 1.0 <= f < g && dl >= 0.0 && a > 0.0
    ensures Saturated(idf, f, Denominator(f, dl, a)) < Saturated(idf, g, Denominator(g, dl, a))
  {
    MoreIsMore(idf, f, g, Denominator(f, dl, a) - f);
    assert Denominator(g, dl, a) == g + (Denominator(f, dl, a) - f);
  }

  lemma Longer(idf: real, f: real, dl: real, el: real, a: real)
    requires idf > 0.0 && 1.0 <= f && 0.0 <= dl < el && a > 0.0
    ensures Saturated(idf, f, Denominator(f, dl, a)) > Saturated(idf, f, Denominator(f, el, a))
  {
    LongerDenominator(f, dl, el, a);
    Product(idf, f * (K1 + 1.0));
    SmallerQuotient(idf * (f * (K1 + 1.0)), Denominator(f, dl, a), Denominator(f, el, a));
  }

  lemma LongerDenominator(f: real, dl: real, el: real, a: real)
    requires f >= 1.0 && 0.0 <= dl < el && a > 0.0
    ensures Denominator(f, dl, a) < Denominator(f, el, a)
  {
    var p, q := 0.75 * dl / a, 0.75 * el / a;
    var r := 0.75 * (el - dl) / a;
    assert q == p + r by {
      assert p * a == 0.75 * dl && q * a == 0.75 * el && r * a == 0.75 * (el - dl);
      assert (q - p - r) * a == 0.0;
    }
    assert Denominator(f, dl, a) == f + 1.2 * (0.25 + p) && Denominator(f, el, a) == f + 1.2 * (0.25 + q);
    Quotient(0.75 * (el - dl), a);
  }

  lemma SmallerQuotient(top: real, c: real, d: real)
    requires top > 0.0 && 0.0 < c < d
    ensures top / c > top / d
  {
    Divided(top / c, top / d, c, d, top);
  }

  /** `k` is what the denominator adds to the count. */
  lemma MoreIsMore(idf: real, f: real, g: real, k: real)
    requires idf > 0.0 && 1.0 <= f < g && k > 0.0
    ensures Saturated(idf, f, f + k) < Saturated(idf, g, g + k)
  {
    var x, y := Saturated(idf, f, f + k), Saturated(idf, g, g + k);
    var c := idf * 2.2;
    assert x * (f + k) == c * f && y * (g + k) == c * g by {
      assert idf * (f * (K1 + 1.0)) == c * f && idf * (g * (K1 + 1.0)) == c * g;
      Quotient(idf * (f * (K1 + 1.0)), f + k);
      Quotient(idf * (g * (K1 + 1.0)), g + k);
    }
    Product(c, k);
    Product(c * k, g - f);
    CrossLess(x, y, c, f, g, k);
  }

  lemma CrossLess(x: real, y: real, c: real, f: real, g: real, k: real)
    requires 0.0 < f < g && k > 0.0 && c * k * (g - f) > 0.0
    requires x * (f + k) == c * f && y * (g + k) == c * g
    ensures x < y
  {
    var d := y - x;
    assert d * ((f + k) * (g + k)) == (y * (g + k)) * (f + k) - (x * (f + k)) * (g + k);
    assert (c * g) * (f + k) - (c * f) * (g + k) == c * k * (g - f);
    Product(f + k, g + k);
    if d <= 0.0 {
      NonNegative(-d, (f + k) * (g + k));
    }
  }

  /** A document scores above zero exactly if it has a query term, and always
      below 2.2 times the summed idf of the query when it does. */
  lemma {:induction false} ScoreBounds(idx: Index, log: real -> real, i: nat, query: seq<string>)
    requires Right(idx, log) && LogLike(log) && Scorable(idx, i)
    ensures Score(idx, i, query) > 0.0 <==> exists k :: 0 <= k < |query| && query[k] in idx.docs[i]
    ensures 0.0 <= Score(idx, i, query) <= 2.2 * SumIdf(idx, query)
    ensures Score(idx, i, query) > 0.0 ==> Score(idx, i, query) < 2.2 * SumIdf(idx, query)
    decreases |query|
  {
    if query != [] {
      var init, t := query[..|query| - 1], query[|query| - 1];
      ScoreBounds(idx, log, i, init);
      WeightBounds(idx, log, i, t);
      IdfPositive(idx, log, t);
      if t in idx.docs[i] {
        assert query[|query| - 1] in idx.docs[i];
      }
      if exists k :: 0 <= k < |query| && query[k] in idx.docs[i] {
        var k :| 0 <= k < |query| && query[k] in idx.docs[i];
        assert k < |init| ==> init[k] in idx.docs[i];
      }
      if exists k :: 0 <= k < |init| && init[k] in idx.docs[i] {
        var k :| 0 <= k < |init| && init[k] in idx.docs[i];
        assert query[k] in idx.docs[i];
      }
    }
  }

  // ------------------------------------------------------- search

  function Clamp(limit: int): nat {
    if limit <= 0 then 5 else if limit > 20 then 20 else limit
  }

  ghost predicate Descending(hits: seq<Hit>) {
    forall i, j | 0 <= i < j < |hits| :: hits[i].score >= hits[j].score
  }

  ghost predicate DistinctDocs(hits: seq<Hit>) {
    forall i, j | 0 <= i < j < |hits| :: hits[i].doc != hits[j].doc
  }

  /** Puts a hit behind those that score at least as much. */
  function Insert(hits: seq<Hit>, h: Hit): (out: seq<Hit>)
    ensures multiset(out) == multiset(hits) + multiset{h}
    ensures forall x :: x in out <==> x in hits || x == h
  {
    if hits == [] || hits[|hits| - 1].score >= h.score then hits + [h]
    else
      assert hits == hits[..|hits| - 1] + [hits[|hits| - 1]];
      Insert(hits[..|hits| - 1], h) + [hits[|hits| - 1]]
  }

  lemma {:induction false} InsertKeepsOrder(hits: seq<Hit>, h: Hit)
    requires Descending(hits)
    ensures Descending(Insert(hits, h))
    decreases |hits|
  {
    if hits != [] && hits[|hits| - 1].score < h.score {
      var init, last := hits[..|hits| - 1], hits[|hits| - 1];
      InsertKeepsOrder(init, h);
      var front := Insert(init, h);
      forall i | 0 <= i < |front| ensures front[i].score >= last.score {
        assert front[i] in front;
      }
    }
  }

  lemma {:induction false} InsertKeepsDistinct(hits: seq<Hit>, h: Hit)
    requires DistinctDocs(hits) && forall i | 0 <= i < |hits| :: hits[i].doc != h.doc
    ensures DistinctDocs(Insert(hits, h))
    decreases |hits|
  {
    if hits != [] && hits[|hits| - 1].score < h.score {
      var init, last := hits[..|hits| - 1], hits[|hits| - 1];
      InsertKeepsDistinct(init, h);
      var front := Insert(init, h);
      forall i | 0 <= i < |front| ensures front[i].doc != last.doc {
        assert front[i] in front;
      }
    }
  }

  /** Sorting as sort.Slice promises it: a permutation in descending order. */
  method SortHits(hits: seq<Hit>) returns (out: seq<Hit>)
    ensures multiset(out) == multiset(hits) && Descending(out)
    ensures DistinctDocs(hits) ==> DistinctDocs(out)
  {
    out := [];
    for i := 0 to |hits|
      invariant multiset(out) == multiset(hits[..i]) && Descending(out)
      invariant DistinctDocs(hits) ==> DistinctDocs(out)
    {
      assert hits[..i + 1] == hits[..i] + [hits[i]];
      if DistinctDocs(hits) {
        forall k | 0 <= k < |out| ensures out[k].doc != hits[i].doc {
          assert out[k] in multiset(out);
          assert out[k] in hits[..i];
        }
        InsertKeepsDistinct(out, hits[i]);
      }
      InsertKeepsOrder(out, hits[i]);
      out := Insert(out, hits[i]);
    }
    assert hits[..|hits|] == hits;
  }

  /** The accumulation over the query's terms for one document. */
  method ScoreOf(idx: Index, i: nat, query: seq<string>) returns (score: real)
    requires Scorable(idx, i)
    ensures score == Score(idx, i, query)
  {
    score := 0.0;
    var dl := |idx.docs[i]| as real;
    var tf := TermFrequency(idx.docs[i]);
    for k := 0 to |query|
      invariant score == Score(idx, i, query[..k])
    {
      assert query[..k + 1][..k] == query[..k];
      var qt := query[k];
      var idfVal := if qt in idx.idf then idx.idf[qt] else 0.0;
      var freq := if qt in tf then tf[qt] else 0;
      assert freq == Count(idx.docs[i], qt) && (freq > 0 <==> qt in idx.docs[i]);
      if freq != 0 {
        score := score + Saturated(idfVal, freq as real, Denominator(freq as real, dl, idx.avgDL));
      }
    }
    assert query[..|query|] == query;
  }

  ghost predicate Matches(idx: Index, i: nat, query: seq<string>) {
    i < |idx.docs| && exists k :: 0 <= k < |query| && query[k] in idx.docs[i]
  }

  ghost function Matching(idx: Index, query: seq<string>, n: nat): set<nat> {
    set i: nat | i < n && Matches(idx, i, query)
  }

  ghost function DocsOf(hits: seq<Hit>): set<nat> {
    set k | 0 <= k < |hits| :: hits[k].doc
  }

  /** A hit names a document and gives its score. */
  ghost predicate IsHit(idx: Index, query: seq<string>, h: Hit) {
    Scorable(idx, h.doc) && h.score == Score(idx, h.doc, query)
  }

  ghost predicate AreHits(idx: Index, query: seq<string>, hits: seq<Hit>) {
    forall k | 0 <= k < |hits| :: IsHit(idx, query, hits[k])
  }

  /** The hits among the first `n` documents: each match once, nothing else. */
  ghost predicate Scored(idx: Index, query: seq<string>, n: nat, hits: seq<Hit>) {
    && DistinctDocs(hits) && AreHits(idx, query, hits)
    && DocsOf(hits) == Matching(idx, query, n) && |hits| == |Matching(idx, query, n)|
  }

  lemma ScoredNext(idx: Index, log: real -> real, query: seq<string>, n: nat, hits: seq<Hit>, score: real)
    requires Right(idx, log) && LogLike(log) && n < |idx.docs| && Scorable(idx, n)
    requires Scored(idx, query, n, hits) && score == Score(idx, n, query)
    ensures Scored(idx, query, n + 1, if score > 0.0 then hits + [Hit(n, score)] else hits)
  {
    MatchIffScores(idx, log, n, query);
    if score > 0.0 {
      ScoredAppend(idx, query, n, hits, Hit(n, score));
    } else {
      MatchingSame(idx, query, n);
    }
  }

  lemma MatchIffScores(idx: Index, log: real -> real, n: nat, query: seq<string>)
    requires Right(idx, log) && LogLike(log) && Scorable(idx, n)
    ensures Score(idx, n, query) > 0.0 <==> Matches(idx, n, query)
  {
    ScoreBounds(idx, log, n, query);
  }

  lemma MatchingSame(idx: Index, query: seq<string>, n: nat)
    requires !Matches(idx, n, query)
    ensures Matching(idx, query, n + 1) == Matching(idx, query, n)
  {
  }

  lemma MatchingNext(idx: Index, query: seq<string>, n: nat)
    requires Matches(idx, n, query)
    ensures Matching(idx, query, n + 1) == Matching(idx, query, n) + {n}
    ensures |Matching(idx, query, n + 1)| == |Matching(idx, query, n)| + 1
  {
    assert n !in Matching(idx, query, n);
    assert Matching(idx, query, n + 1) == Matching(idx, query, n) + {n};
  }

  lemma ScoredAppend(idx: Index, query: seq<string>, n: nat, hits: seq<Hit>, h: Hit)
    requires Scored(idx, query, n, hits) && h.doc == n && IsHit(idx, query, h) && Matches(idx, n, query)
    ensures Scored(idx, query, n + 1, hits + [h])
  {
    MatchingNext(idx, query, n);
    DocsSnoc(hits, h);
    forall i | 0 <= i < |hits| ensures hits[i].doc != n {
      assert hits[i].doc in DocsOf(hits);
    }
  }

  lemma DocsSnoc(hits: seq<Hit>, h: Hit)
    ensures DocsOf(hits + [h]) == DocsOf(hits) + {h.doc}
  {
    var more := hits + [h];
    forall d ensures d in DocsOf(more) <==> d in DocsOf(hits) + {h.doc} {
      if d in DocsOf(hits) {
        var k :| 0 <= k < |hits| && hits[k].doc == d;
        assert more[k].doc == d;
      }
      if d == h.doc {
        assert more[|hits|].doc == d;
      }
    }
  }

  /** `i` matches, is not among the results, and scores no more than any of them. */
  ghost predicate LeftOut(idx: Index, query: seq<string>, results: seq<Hit>, i: nat) {
    Scorable(idx, i) && forall k | 0 <= k < |results| :: Score(idx, i, query) <= results[k].score
  }

  /** What a ranked result list promises. */
  ghost predicate Ranked(idx: Index, query: seq<string>, limit: nat, results: seq<Hit>) {
    var all := Matching(idx, query, |idx.docs|);
    && Descending(results) && DistinctDocs(results) && AreHits(idx, query, results)
    && |results| == (if |all| > limit then limit else |all|)
    && DocsOf(results) <= all
    && (forall i | i in all - DocsOf(results) :: LeftOut(idx, query, results, i))
  }

  lemma SortedScored(idx: Index, query: seq<string>, n: nat, hits: seq<Hit>, sorted: seq<Hit>)
    requires Scored(idx, query, n, hits) && multiset(sorted) == multiset(hits) && DistinctDocs(sorted)
    ensures Scored(idx, query, n, sorted)
  {
    assert |sorted| == |multiset(sorted)| == |multiset(hits)| == |hits|;
    forall k | 0 <= k < |sorted| ensures IsHit(idx, query, sorted[k]) && sorted[k].doc in DocsOf(hits) {
      assert sorted[k] in multiset(sorted);
      var l :| 0 <= l < |hits| && hits[l] == sorted[k];
    }
    forall l | 0 <= l < |hits| ensures hits[l].doc in DocsOf(sorted) {
      assert hits[l] in multiset(hits);
      var k :| 0 <= k < |sorted| && sorted[k] == hits[l];
    }
    assert DocsOf(sorted) == DocsOf(hits);
  }

  lemma BeyondTop(top: seq<Hit>, sorted: seq<Hit>, l: nat)
    requires top <= sorted && l < |sorted|
    ensures l < |top| ==> sorted[l].doc in DocsOf(top)
  {
    if l < |top| {
      assert top[l] == sorted[l];
    }
  }

  lemma TopDocs(top: seq<Hit>, sorted: seq<Hit>)
    requires top <= sorted
    ensures DocsOf(top) <= DocsOf(sorted)
  {
    forall d | d in DocsOf(top) ensures d in DocsOf(sorted) {
      var k :| 0 <= k < |top| && top[k].doc == d;
      assert sorted[k].doc == d;
    }
  }

  lemma TopIsRanked(idx: Index, query: seq<string>, limit: nat, sorted: seq<Hit>)
    requires Scored(idx, query, |idx.docs|, sorted) && Descending(sorted)
    ensures Ranked(idx, query, limit, if |sorted| > limit then sorted[..limit] else sorted)
  {
    var top := if |sorted| > limit then sorted[..limit] else sorted;
    assert forall k | 0 <= k < |top| :: top[k] == sorted[k] && IsHit(idx, query, sorted[k]);
    TopDocs(top, sorted);
    forall i | i in DocsOf(sorted) - DocsOf(top) ensures LeftOut(idx, query, top, i) {
      var l :| 0 <= l < |sorted| && sorted[l].doc == i;
      assert IsHit(idx, query, sorted[l]);
      BeyondTop(top, sorted, l);
    }
  }

  /** Ranked search: only matching documents, each once with its score, best
      first, as many as the clamped limit allows; and no match left out scores
      higher than one returned. A blank query lists the first documents instead. */
  method Search(idx: Index, query: string, limit: int, lower: char -> char, log: real -> real) returns (results: seq<Hit>)
    requires Right(idx, log) && LogLike(log)
    ensures TrimSpace(query) != "" ==> Ranked(idx, Fields(LowerBy(query, lower)), Clamp(limit), results)
    ensures TrimSpace(query) == "" ==>
              && |results| == (if |idx.docs| > Clamp(limit) then Clamp(limit) else |idx.docs|)
              && forall i | 0 <= i < |results| :: results[i] == Hit(i, 0.0)
    ensures |results| <= 20 && (limit <= 0 ==> |results| <= 5) && (limit > 0 ==> |results| <= limit)
    ensures TrimSpace(query) == "" && 1 <= limit <= 20 && limit <= |idx.docs| ==> |results| == limit
  {
    var n := Clamp(limit);
    if TrimSpace(query) == "" {
      results := seq(|idx.actions|, i requires 0 <= i => Hit(i, 0.0));
      if |results| > n {
        results := results[..n];
      }
      return;
    }
    var terms := Fields(LowerBy(query, lower));
    var scored: seq<Hit> := [];
    assert Matching(idx, terms, 0) == {};
    for i := 0 to |idx.docs|
      invariant Scored(idx, terms, i, scored)
    {
      RightScorable(idx, log, i);
      var score := ScoreOf(idx, i, terms);
      ScoredNext(idx, log, terms, i, scored, score);
      if score > 0.0 {
        scored := scored + [Hit(i, score)];
      }
    }
    var sorted := SortHits(scored);
    SortedScored(idx, terms, |idx.docs|, scored, sorted);
    TopIsRanked(idx, terms, n, sorted);
    results := if |sorted| > n then sorted[..n] else sorted;
  }
}
