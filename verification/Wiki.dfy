/** Wiki export and import: a printer and a parser of markdown files with a front matter. */
module Wiki {
  import opened Common
  import opened Text

  /** The times are kept as the text they are printed as. */
  datatype Article = Article(slug: string, title: string, body: string, author: string, revision: nat,
                             created: string, updated: string)

  datatype Parsed = Parsed(slug: string, title: string, body: string)

  // ------------------------------------------------------- quoting

  /** One character of %q; `printable` is strconv.IsPrint. */
  function Escape(c: char, printable: char -> bool): string {
    var u := c as int;
    if c == '"' then "\\\""
    else if c == '\\' then "\\\\"
    else if printable(c) then [c]
    else if u == 7 then "\\a"
    else if u == 8 then "\\b"
    else if u == 9 then "\\t"
    else if u == 10 then "\\n"
    else if u == 11 then "\\v"
    else if u == 12 then "\\f"
    else if u == 13 then "\\r"
    else if u < 32 || u == 127 then "\\x" + Hex(u, 2)
    else if u < 0x10000 then "\\u" + Hex(u, 4)
    else "\\U" + Hex(u, 8)
  }

  function EscapeAll(s: string, printable: char -> bool): string {
    if s == "" then "" else EscapeAll(s[..|s| - 1], printable) + Escape(s[|s| - 1], printable)
  }

  function Quoted(s: string, printable: char -> bool): string {
    "\"" + EscapeAll(s, printable) + "\""
  }

  /** What a backslash and one letter stand for. */
  function Unescaped1(c: char): char {
    match c
    case 'a' => 7 as char
    case 'b' => 8 as char
    case 't' => 9 as char
    case 'n' => 10 as char
    case 'v' => 11 as char
    case 'f' => 12 as char
    case 'r' => 13 as char
    case _ => c
  }

  function CharOf(n: nat): char {
    if n < 0xD800 || 0xE000 <= n < 0x110000 then n as char else '?'
  }

  /** Reading escapes back, as strconv.Unquote does between the quotes. */
  function Unescape(s: string): string
    decreases |s|
  {
    if s == "" then ""
    else if s[0] != '\\' then [s[0]] + Unescape(s[1..])
    else if |s| >= 4 && s[1] == 'x' then [CharOf(HexReading(s[2..4]))] + Unescape(s[4..])
    else if |s| >= 6 && s[1] == 'u' then [CharOf(HexReading(s[2..6]))] + Unescape(s[6..])
    else if |s| >= 10 && s[1] == 'U' then [CharOf(HexReading(s[2..10]))] + Unescape(s[10..])
    else if |s| >= 2 then [Unescaped1(s[1])] + Unescape(s[2..])
    else s
  }

  lemma UnescapeHex(c: char, letter: char, width: nat, rest: string)
    requires (letter == 'x' && width == 2) || (letter == 'u' && width == 4) || (letter == 'U' && width == 8)
    requires c as int < Pow16(width)
    ensures Unescape(("\\" + [letter] + Hex(c as int, width)) + rest) == [c] + Unescape(rest)
  {
    HexReads(c as int, width);
    var h := Hex(c as int, width);
    var s := ("\\" + [letter] + h) + rest;
    assert s[2..2 + width] == h && s[2 + width..] == rest;
  }

  lemma UnescapePlain(c: char, rest: string)
    requires c != '\\'
    ensures Unescape([c] + rest) == [c] + Unescape(rest)
  {
    assert ([c] + rest)[1..] == rest;
  }

  lemma UnescapePair(letter: char, rest: string)
    requires letter != 'x' && letter != 'u' && letter != 'U'
    ensures Unescape(['\\', letter] + rest) == [Unescaped1(letter)] + Unescape(rest)
  {
    var s := ['\\', letter] + rest;
    assert s[2..] == rest && s[0] == '\\' && s[1] == letter;
  }

  /** The two-character escapes. */
  function Letter(c: char): char {
    if c == '"' || c == '\\' then c
    else match c as int
      case 7 => 'a'
      case 8 => 'b'
      case 9 => 't'
      case 10 => 'n'
      case 11 => 'v'
      case 12 => 'f'
      case _ => 'r'
  }

  lemma UnescapeShort(c: char, printable: char -> bool, rest: string)
    requires c == '"' || c == '\\' || printable(c) || 7 <= c as int <= 13
    ensures Unescape(Escape(c, printable) + rest) == [c] + Unescape(rest)
  {
    if c != '"' && c != '\\' && printable(c) {
      UnescapePlain(c, rest);
    } else {
      UnescapePair(Letter(c), rest);
      assert Escape(c, printable) == ['\\', Letter(c)];
    }
  }

  /** The escapes of characters without a letter of their own. */
  lemma EscapeLong(c: char, printable: char -> bool) returns (letter: char, width: nat)
    requires !(c == '"' || c == '\\' || printable(c) || 7 <= c as int <= 13)
    ensures (letter == 'x' && width == 2) || (letter == 'u' && width == 4) || (letter == 'U' && width == 8)
    ensures c as int < Pow16(width) && Escape(c, printable) == "\\" + [letter] + Hex(c as int, width)
  {
    var u := c as int;
    PowersOf16();
    if u < 32 || u == 127 {
      letter, width := 'x', 2;
      assert "\\x" == "\\" + ['x'];
    } else if u < 0x10000 {
      letter, width := 'u', 4;
      assert "\\u" == "\\" + ['u'];
    } else {
      letter, width := 'U', 8;
      assert "\\U" == "\\" + ['U'];
    }
  }

  lemma UnescapeOne(c: char, printable: char -> bool, rest: string)
    ensures Unescape(Escape(c, printable) + rest) == [c] + Unescape(rest)
  {
    if c == '"' || c == '\\' || printable(c) || 7 <= c as int <= 13 {
      UnescapeShort(c, printable, rest);
    } else {
      var letter, width := EscapeLong(c, printable);
      UnescapeHex(c, letter, width, rest);
    }
  }

  lemma EscapeSnoc(s: string, d: char, printable: char -> bool)
    ensures EscapeAll(s + [d], printable) == EscapeAll(s, printable) + Escape(d, printable)
  {
    assert (s + [d])[..|s|] == s;
  }

  lemma {:induction false} EscapeFront(c: char, s: string, printable: char -> bool)
    ensures EscapeAll([c] + s, printable) == Escape(c, printable) + EscapeAll(s, printable)
    decreases |s|
  {
    if s == "" {
      EscapeSnoc("", c, printable);
      assert [c] + s == "" + [c];
    } else {
      var front, d := s[..|s| - 1], s[|s| - 1];
      assert s == front + [d];
      assert [c] + s == ([c] + front) + [d];
      calc {
        EscapeAll([c] + s, printable);
        { EscapeSnoc([c] + front, d, printable); }
        EscapeAll([c] + front, printable) + Escape(d, printable);
        { EscapeFront(c, front, printable); }
        (Escape(c, printable) + EscapeAll(front, printable)) + Escape(d, printable);
        { Associates(Escape(c, printable), EscapeAll(front, printable), Escape(d, printable)); }
        Escape(c, printable) + (EscapeAll(front, printable) + Escape(d, printable));
        { EscapeSnoc(front, d, printable); }
        Escape(c, printable) + EscapeAll(s, printable);
      }
    }
  }

  lemma Associates(a: string, b: string, c: string)
    ensures (a + b) + c == a + (b + c)
  {
  }

  /** A quoted text can be unquoted: no two texts are printed alike. */
  lemma {:induction false} UnescapeAll(s: string, printable: char -> bool)
    ensures Unescape(EscapeAll(s, printable)) == s
    decreases |s|
  {
    if s != "" {
      UnescapeAll(s[1..], printable);
      EscapeFront(s[0], s[1..], printable);
      assert s == [s[0]] + s[1..];
      UnescapeOne(s[0], printable, EscapeAll(s[1..], printable));
    }
  }

  /** Nothing in the text needs escaping. */
  predicate Unescaped(s: string, printable: char -> bool) {
    forall i | 0 <= i < |s| :: printable(s[i]) && s[i] != '"' && s[i] != '\\'
  }

  // ------------------------------------------------------- lines and searching

  predicate OneLine(s: string) {
    forall i | 0 <= i < |s| :: s[i] != '\n'
  }

  function Index(s: string, sep: string): Option<nat> {
    if sep <= s then Some(0)
    else if s == "" then None
    else match Index(s[1..], sep)
      case None => None
      case Some(i) => Some(i + 1)
  }

  function SplitLines(s: string): (r: seq<string>)
    ensures |r| > 0
  {
    if s == "" then [""]
    else if s[0] == '\n' then [""] + SplitLines(s[1..])
    else
      var r := SplitLines(s[1..]);
      [[s[0]] + r[0]] + r[1..]
  }

  function JoinLines(lines: seq<string>): string
    requires lines != []
  {
    if |lines| == 1 then lines[0] else lines[0] + ("\n" + JoinLines(lines[1..]))
  }

  // ------------------------------------------------------- printing

  function Line(name: string, value: string): string {
    name + ": " + value
  }

  function FrontLines(a: Article, printable: char -> bool): seq<string> {
    [Line("title", Quoted(a.title, printable)), Line("slug", a.slug), Line("author", a.author),
     Line("revision", Decimal(a.revision)), Line("created", a.created), Line("updated", a.updated)]
  }

  function EndLine(body: string): string {
    if body != "" && body[|body| - 1] == '\n' then body else body + "\n"
  }

  function Rendered(a: Article, printable: char -> bool): string {
    "---\n" + JoinLines(FrontLines(a, printable)) + "\n---" + ("\n\n" + EndLine(a.body))
  }

  /** What an export needs of an article to be read back: its fields stay on their lines. */
  predicate Exportable(a: Article) {
    OneLine(a.slug) && OneLine(a.author) && OneLine(a.created) && OneLine(a.updated)
  }

  /** Lines, each with its line end. */
  function Block(lines: seq<string>): string {
    if lines == [] then "" else Block(lines[..|lines| - 1]) + (lines[|lines| - 1] + "\n")
  }

  /** One formatted line more. */
  function Emit(sb: string, key: string, value: string): string {
    sb + key + value + "\n"
  }

  /** The builder holds the opening line and the first `i` lines. */
  ghost predicate Built(l: seq<string>, i: nat, sb: string)
    requires i <= |l|
  {
    sb == "---\n" + Block(l[..i])
  }

  /** The front matter as a reader sees it. */
  function FrontText(a: Article, printable: char -> bool): string {
    var s1 := Emit("---\n", "title: ", Quoted(a.title, printable));
    var s2 := Emit(s1, "slug: ", a.slug);
    var s3 := Emit(s2, "author: ", a.author);
    var s4 := Emit(s3, "revision: ", Decimal(a.revision));
    var s5 := Emit(s4, "created: ", a.created);
    Emit(s5, "updated: ", a.updated)
  }

  lemma Keys()
    ensures "title: " == "title" + ": " && "slug: " == "slug" + ": " && "author: " == "author" + ": "
    ensures "revision: " == "revision" + ": " && "created: " == "created" + ": " && "updated: " == "updated" + ": "
  {
  }

  lemma FrontTextBuilt(a: Article, printable: char -> bool)
    ensures Built(FrontLines(a, printable), 6, FrontText(a, printable))
  {
    var l := FrontLines(a, printable);
    Keys();
    assert Built(l, 0, "---\n");
    Appended(l, 0, "title", "title: ", Quoted(a.title, printable), "---\n");
    var s1 := Emit("---\n", "title: ", Quoted(a.title, printable));
    Appended(l, 1, "slug", "slug: ", a.slug, s1);
    var s2 := Emit(s1, "slug: ", a.slug);
    Appended(l, 2, "author", "author: ", a.author, s2);
    var s3 := Emit(s2, "author: ", a.author);
    Appended(l, 3, "revision", "revision: ", Decimal(a.revision), s3);
    var s4 := Emit(s3, "revision: ", Decimal(a.revision));
    Appended(l, 4, "created", "created: ", a.created, s4);
    Appended(l, 5, "updated", "updated: ", a.updated, Emit(s4, "created: ", a.created));
  }

  /** The opening line and the fields. */
  method FormatFront(a: Article, printable: char -> bool) returns (sb: string)
    ensures sb == FrontText(a, printable)
  {
    sb := "---\n";
    sb := Emit(sb, "title: ", Quoted(a.title, printable));
    sb := Emit(sb, "slug: ", a.slug);
    sb := Emit(sb, "author: ", a.author);
    sb := Emit(sb, "revision: ", Decimal(a.revision));
    sb := Emit(sb, "created: ", a.created);
    sb := Emit(sb, "updated: ", a.updated);
  }

  /** The exported file: the six fields in order, a blank line, and the body with a line end. */
  lemma RenderedText(a: Article, printable: char -> bool)
    ensures Rendered(a, printable)
         == FrontText(a, printable) + "---\n\n" + a.body
            + if a.body != "" && a.body[|a.body| - 1] == '\n' then "" else "\n"
  {
    FrontTextBuilt(a, printable);
    FrontBuilt(FrontLines(a, printable), FrontText(a, printable), a.body);
    assert FrontText(a, printable) + "---\n\n" + a.body + "" == FrontText(a, printable) + "---\n\n" + a.body;
  }

  method FormatArticleExport(a: Article, printable: char -> bool) returns (out: string)
    ensures out == Rendered(a, printable)
  {
    var sb := FormatFront(a, printable);
    FrontTextBuilt(a, printable);
    FrontBuilt(FrontLines(a, printable), sb, a.body);
    sb := sb + "---\n\n";
    sb := sb + a.body;
    if !(a.body != "" && a.body[|a.body| - 1] == '\n') {
      sb := sb + "\n";
    }
    out := sb;
  }

  /** The builder after one more `key: value` line. */
  lemma Appended(l: seq<string>, i: nat, name: string, key: string, value: string, sb: string)
    requires i < |l| && l[i] == Line(name, value) && key == name + ": " && Built(l, i, sb)
    ensures Built(l, i + 1, Emit(sb, key, value))
  {
    assert l[..i + 1][..i] == l[..i];
    var b := Block(l[..i]);
    calc {
      sb + key + value + "\n";
      sb + ((key + value) + "\n");
      "---\n" + (b + (l[i] + "\n"));
    }
  }

  lemma FrontBuilt(l: seq<string>, sb: string, body: string)
    requires l != [] && Built(l, |l|, sb)
    ensures sb + "---\n\n" + body == "---\n" + JoinLines(l) + "\n---" + ("\n\n" + body)
    ensures sb + "---\n\n" + body + "\n" == "---\n" + JoinLines(l) + "\n---" + ("\n\n" + (body + "\n"))
  {
    assert l[..|l|] == l;
    BodyAppended(l, body);
  }

  lemma BodyAppended(l: seq<string>, body: string)
    requires l != []
    ensures "---\n" + Block(l) + "---\n\n" + body == "---\n" + JoinLines(l) + "\n---" + ("\n\n" + body)
    ensures "---\n" + Block(l) + "---\n\n" + body + "\n" == "---\n" + JoinLines(l) + "\n---" + ("\n\n" + (body + "\n"))
  {
    BlockJoins(l);
    var j := JoinLines(l);
    calc {
      "---\n" + Block(l) + "---\n\n" + body;
      "---\n" + (j + "\n") + "---\n\n" + body;
      { assert (j + "\n") + "---\n\n" == j + "\n---" + "\n\n"; }
      "---\n" + j + "\n---" + ("\n\n" + body);
    }
    assert "\n\n" + body + "\n" == "\n\n" + (body + "\n");
  }

  lemma {:induction false} BlockJoins(l: seq<string>)
    requires l != []
    ensures Block(l) == JoinLines(l) + "\n"
    decreases |l|
  {
    if |l| > 1 {
      BlockFront(l);
      BlockJoins(l[1..]);
    } else {
      assert Block(l[..0]) == "";
    }
  }

  lemma {:induction false} BlockFront(l: seq<string>)
    requires l != []
    ensures Block(l) == (l[0] + "\n") + Block(l[1..])
    decreases |l|
  {
    var m := |l| - 1;
    if m > 0 {
      BlockFront(l[..m]);
      assert l[..m][1..] == l[1..][..m - 1];
    } else {
      assert Block(l[..0]) == "" && Block(l[1..]) == "";
    }
  }

  // ------------------------------------------------------- parsing

  /** Key and value of a front-matter line, if it has a colon. */
  function Field(line: string): Option<(string, string)> {
    var s := TrimSpace(line);
    match Index(s, ":")
    case None => None
    case Some(i) =>
      if i < |s| then Some((TrimSpace(s[..i]), Trim(TrimSpace(s[i + 1..]), Quotes))) else None
  }

  /** The value of the last line with the key. */
  function Lookup(lines: seq<string>, key: string): string {
    if lines == [] then ""
    else
      var f := Field(lines[|lines| - 1]);
      if f.Some? && f.value.0 == key then f.value.1 else Lookup(lines[..|lines| - 1], key)
  }

  function Read(content: string): Parsed {
    var c := TrimSpace(content);
    if !("---" <= c) then Parsed("", "", c) else ReadRest(c, TrimLeft(c[3..], LineEnds))
  }

  /** What follows the opening `---`: lines up to the closing one, and the body. */
  function ReadRest(c: string, rest: string): Parsed {
    match Index(rest, "\n---")
    case None => Parsed("", "", c)
    case Some(i) =>
      if i + 4 <= |rest| then
        var lines := SplitLines(rest[..i]);
        Parsed(Lookup(lines, "slug"), Lookup(lines, "title"), TrimLeft(rest[i + 4..], LineEnds))
      else Parsed("", "", c)
  }

  predicate HasKey(line: string, key: string) {
    Field(line).Some? && Field(line).value.0 == key
  }

  /** The last line with the key decides, line `i - 1` here, and without one the value is empty. */
  lemma {:induction false} LastLineWins(lines: seq<string>, key: string, i: nat)
    requires i <= |lines| && forall j | i <= j < |lines| :: !HasKey(lines[j], key)
    requires i == 0 || HasKey(lines[i - 1], key)
    ensures Lookup(lines, key) == if i == 0 then "" else Field(lines[i - 1]).value.1
    decreases |lines|
  {
    if i < |lines| {
      var front, last := lines[..|lines| - 1], lines[|lines| - 1];
      assert !HasKey(last, key);
      LastLineWins(front, key, i);
    }
  }

  /** The content after an opening `---` and its line ends. */
  function AfterOpening(content: string): string {
    var c := TrimSpace(content);
    if "---" <= c then TrimLeft(c[3..], LineEnds) else ""
  }

  /** The first end line of the front matter. */
  ghost predicate EndsAt(rest: string, i: nat) {
    i + 4 <= |rest| && "\n---" <= rest[i..] && forall j | 0 <= j < i :: !("\n---" <= rest[j..])
  }

  /** No opening `---`, or no end line after it. The line ends after the opening
      are dropped first, so an end line that follows at once is not seen. */
  ghost predicate Unfenced(content: string) {
    || !("---" <= TrimSpace(content))
    || forall i | 0 <= i <= |AfterOpening(content)| :: !("\n---" <= AfterOpening(content)[i..])
  }

  /** A file without a front matter is all body. */
  lemma ReadUnfenced(content: string)
    requires Unfenced(content)
    ensures Read(content) == Parsed("", "", TrimSpace(content))
  {
    IndexIsFirst(AfterOpening(content), "\n---");
  }

  /** Otherwise the lines before the first end line are the front matter, and
      what follows it is the body. */
  lemma ReadFenced(content: string, i: nat)
    requires "---" <= TrimSpace(content) && EndsAt(AfterOpening(content), i)
    ensures var rest := AfterOpening(content);
            Read(content) == Parsed(Lookup(SplitLines(rest[..i]), "slug"), Lookup(SplitLines(rest[..i]), "title"),
                                    TrimLeft(rest[i + 4..], LineEnds))
  {
    IndexIsFirst(AfterOpening(content), "\n---");
  }

  method ParseFrontmatter(content: string) returns (p: Parsed)
    ensures p == Read(content)
  {
    var c := TrimSpace(content);
    if !("---" <= c) {
      return Parsed("", "", c);
    }
    var rest := TrimLeft(c[3..], LineEnds);
    var idx := Index(rest, "\n---");
    if idx.None? || idx.value + 4 > |rest| {
      return Parsed("", "", c);
    }
    var lines := SplitLines(rest[..idx.value]);
    var body := TrimLeft(rest[idx.value + 4..], LineEnds);
    var slug, title := "", "";
    for i := 0 to |lines|
      invariant slug == Lookup(lines[..i], "slug") && title == Lookup(lines[..i], "title")
    {
      assert lines[..i + 1][..i] == lines[..i];
      var f := Field(lines[i]);
      if f.Some? {
        if f.value.0 == "slug" {
          slug := f.value.1;
        } else if f.value.0 == "title" {
          title := f.value.1;
        }
      }
    }
    assert lines[..|lines|] == lines;
    return Parsed(slug, title, body);
  }

  // ------------------------------------------------------- searching lemmas

  /** A match is where it is said to be, and there is none before it. */
  lemma {:induction false} IndexIsFirst(s: string, sep: string)
    ensures match Index(s, sep)
            case None => forall i | 0 <= i <= |s| :: !(sep <= s[i..])
            case Some(k) => k + |sep| <= |s| && sep <= s[k..] && forall i | 0 <= i < k :: !(sep <= s[i..])
    decreases |s|
  {
    if sep <= s {
      assert s[0..] == s;
    } else if s != "" {
      IndexIsFirst(s[1..], sep);
      forall i | 1 <= i <= |s| ensures s[i..] == s[1..][i - 1..] {
      }
      assert s[0..] == s;
    } else {
      assert forall i | 0 <= i <= |s| :: s[i..] == s;
    }
  }

  /** A part without the separator's first character is passed over. */
  lemma {:induction false} IndexSkips(a: string, s: string, sep: string)
    requires sep != "" && forall i | 0 <= i < |a| :: a[i] != sep[0]
    ensures Index(a + s, sep) == (match Index(s, sep) case None => None case Some(i) => Some(|a| + i))
    decreases |a|
  {
    if a == "" {
      assert a + s == s;
    } else {
      assert (a + s)[0] == a[0];
      assert (a + s)[1..] == a[1..] + s;
      IndexSkips(a[1..], s, sep);
    }
  }

  predicate FrontLine(line: string) {
    OneLine(line) && line != "" && line[0] != '-'
  }

  /** The front matter ends at the first `---` line, whatever follows it. */
  lemma {:induction false} IndexOfEnd(lines: seq<string>, tail: string)
    requires lines != [] && forall i | 0 <= i < |lines| :: FrontLine(lines[i])
    ensures Index(JoinLines(lines) + ("\n---" + tail), "\n---") == Some(|JoinLines(lines)|)
    decreases |lines|
  {
    if |lines| == 1 {
      IndexSkips(lines[0], "\n---" + tail, "\n---");
      assert "\n---" <= "\n---" + tail;
    } else {
      var more := JoinLines(lines[1..]);
      var s := "\n" + (more + ("\n---" + tail));
      IndexOfEnd(lines[1..], tail);
      JoinStart(lines[1..]);
      assert s[1] == lines[1][0];
      assert s[1..] == more + ("\n---" + tail);
      assert Index(s, "\n---") == Some(1 + |more|);
      IndexSkips(lines[0], s, "\n---");
      assert JoinLines(lines) + ("\n---" + tail) == lines[0] + s;
    }
  }

  lemma JoinStart(lines: seq<string>)
    requires lines != [] && lines[0] != ""
    ensures JoinLines(lines) != "" && JoinLines(lines)[0] == lines[0][0]
  {
  }

  lemma {:induction false} SplitOneLine(line: string, s: string)
    requires OneLine(line)
    ensures SplitLines(line) == [line]
    ensures SplitLines(line + ("\n" + s)) == [line] + SplitLines(s)
    decreases |line|
  {
    if line == "" {
      assert line + ("\n" + s) == "\n" + s;
      assert ("\n" + s)[1..] == s;
    } else {
      SplitOneLine(line[1..], s);
      assert (line + ("\n" + s))[1..] == line[1..] + ("\n" + s);
      assert [line[0]] + line[1..] == line;
    }
  }

  /** Splitting undoes joining. */
  lemma {:induction false} SplitJoin(lines: seq<string>)
    requires lines != [] && forall i | 0 <= i < |lines| :: OneLine(lines[i])
    ensures SplitLines(JoinLines(lines)) == lines
    decreases |lines|
  {
    if |lines| == 1 {
      SplitOneLine(lines[0], "");
    } else {
      SplitJoin(lines[1..]);
      SplitOneLine(lines[0], JoinLines(lines[1..]));
      assert [lines[0]] + lines[1..] == lines;
    }
  }

  // ------------------------------------------------------- fields

  /** Reading a printed line `key: value`. */
  lemma FieldOf(key: string, value: string)
    requires key != "" && forall i | 0 <= i < |key| :: key[i] != ':' && !IsSpace(key[i])
    ensures Field(Line(key, value)) == Some((key, Trim(TrimSpace(value), Quotes)))
  {
    var head, line := key + ":", Line(key, value);
    assert line == head + (" " + value);
    assert TrimLeft(line, Blanks) == line;
    TrimRightAfter(head, " " + value, Blanks);
    var tail := TrimRight(" " + value, Blanks);
    var s := TrimSpace(line);
    assert s == head + tail == key + (":" + tail);
    IndexSkips(key, ":" + tail, ":");
    assert ":" <= ":" + tail;
    assert s[..|key|] == key && s[|key| + 1..] == tail;
    assert Clean(key, Blanks);
    TrimClean(key, Blanks);
    SpaceBefore(value);
  }

  lemma SpaceBefore(value: string)
    ensures TrimSpace(TrimRight(" " + value, Blanks)) == TrimSpace(value)
  {
    var s := " " + value;
    var cut := TrimRightSplits(value, Blanks);
    var v := TrimRight(value, Blanks);
    if v == "" {
      assert AllIn(s, Blanks) by {
        assert forall i | 0 <= i < |s| :: i > 0 ==> s[i] == value[i - 1];
      }
      TrimRightAll(s, Blanks);
      TrimLeftSkips(value, "", Blanks);
      assert value + "" == value;
      assert TrimLeft("", Blanks) == "";
    } else {
      assert s == (" " + v) + cut;
      TrimRightSkips(" " + v, cut, Blanks);
      assert (" " + v)[|v|] == v[|v| - 1];
      assert TrimRight(" " + v, Blanks) == " " + v;
      TrimLeftSkips(" ", v, Blanks);
      TrimBothSides(value);
    }
  }

  /** Trimming the right end first or last makes no difference. */
  lemma TrimBothSides(value: string)
    requires TrimRight(value, Blanks) != ""
    ensures TrimRight(TrimLeft(TrimRight(value, Blanks), Blanks), Blanks) == TrimSpace(value)
  {
    var v := TrimRight(value, Blanks);
    var cut := TrimRightSplits(value, Blanks);
    var left := TrimLeftSplits(v, Blanks);
    var core := TrimLeft(v, Blanks);
    assert core == "" ==> v == left;
    assert core != "";
    assert core[|core| - 1] == v[|v| - 1];
    assert value == left + (core + cut);
    TrimLeftSkips(left, core + cut, Blanks);
    assert (core + cut)[0] == core[0];
    TrimRightSkips(core, cut, Blanks);
  }

  // ------------------------------------------------------- the round trip

  /** What a body comes back as: without trailing blanks and leading line ends. */
  function NormalBody(body: string): string {
    TrimLeft(TrimRight(body, Blanks), LineEnds)
  }

  lemma BodyComesBack(body: string)
    ensures TrimLeft(TrimRight("\n\n" + EndLine(body), Blanks), LineEnds) == NormalBody(body)
  {
    var b := EndLine(body);
    if b != body {
      TrimRightSkips(body, "\n", Blanks);
    }
    BlankLinesBefore(b);
  }

  /** Two line ends in front go the way of the blanks at the end. */
  lemma BlankLinesBefore(b: string)
    ensures TrimLeft(TrimRight("\n\n" + b, Blanks), LineEnds) == TrimLeft(TrimRight(b, Blanks), LineEnds)
  {
    var v := TrimRight(b, Blanks);
    var cut := TrimRightSplits(b, Blanks);
    if v == "" {
      assert AllIn("\n\n" + b, Blanks) by {
        assert forall i | 0 <= i < |b| + 2 :: i > 1 ==> ("\n\n" + b)[i] == b[i - 2];
      }
      TrimRightAll("\n\n" + b, Blanks);
    } else {
      assert "\n\n" + b == ("\n\n" + v) + cut;
      TrimRightSkips("\n\n" + v, cut, Blanks);
      TrimRightAfter("\n\n" + v, "", Blanks);
      assert ("\n\n" + v) + "" == "\n\n" + v;
      TrimLeftSkips("\n\n", v, LineEnds);
    }
  }

  /** A body in normal form stays as it is. */
  lemma NormalBodyStable(body: string)
    ensures NormalBody(NormalBody(body)) == NormalBody(body)
  {
    var v := TrimRight(body, Blanks);
    var cut := TrimRightSplits(body, Blanks);
    var left := TrimLeftSplits(v, LineEnds);
    var n := TrimLeft(v, LineEnds);
    if n != "" {
      assert n[|n| - 1] == v[|v| - 1];
    }
  }

  lemma {:induction false} EscapedOneLine(s: string, printable: char -> bool)
    requires !printable('\n')
    ensures OneLine(EscapeAll(s, printable))
    decreases |s|
  {
    if s != "" {
      var c := s[|s| - 1];
      EscapedOneLine(s[..|s| - 1], printable);
      HexOneLine(c as int, 2);
      HexOneLine(c as int, 4);
      HexOneLine(c as int, 8);
      assert OneLine(Escape(c, printable));
    }
  }

  lemma {:induction false} HexOneLine(n: nat, width: nat)
    ensures forall i | 0 <= i < |Hex(n, width)| :: Hex(n, width)[i] != '\n' && Hex(n, width)[i] != '\\'
    decreases width
  {
    if width > 0 {
      HexOneLine(n / 16, width - 1);
    }
  }

  function Head(a: Article, printable: char -> bool): string {
    "---\n" + JoinLines(FrontLines(a, printable)) + "\n---"
  }

  /** Trimming the whole file trims the body's end only. */
  lemma TrimFile(a: Article, printable: char -> bool)
    ensures TrimSpace(Rendered(a, printable))
         == Head(a, printable) + TrimRight("\n\n" + EndLine(a.body), Blanks)
  {
    var head, after := Head(a, printable), "\n\n" + EndLine(a.body);
    assert Rendered(a, printable) == head + after;
    assert (head + after)[0] == '-' && head[|head| - 1] == '-';
    assert TrimLeft(head + after, Blanks) == head + after;
    TrimRightAfter(head, after, Blanks);
  }

  /** Parsing from the opening line on. */
  lemma ReadHead(lines: seq<string>, tail: string, content: string)
    requires lines != [] && forall i | 0 <= i < |lines| :: FrontLine(lines[i]) && lines[i][0] != '\r'
    requires TrimSpace(content) == "---\n" + JoinLines(lines) + "\n---" + tail
    ensures Read(content) == Parsed(Lookup(lines, "slug"), Lookup(lines, "title"), TrimLeft(tail, LineEnds))
  {
    var rest := JoinLines(lines) + ("\n---" + tail);
    JoinStart(lines);
    assert rest[0] == lines[0][0];
    OpeningOff(TrimSpace(content), rest);
    ReadRestOf(TrimSpace(content), lines, tail);
  }

  lemma OpeningOff(c: string, rest: string)
    requires c == "---\n" + rest && rest != "" && !IsLineEnd(rest[0])
    ensures "---" <= c && TrimLeft(c[3..], LineEnds) == rest
  {
    assert c[3..] == "\n" + rest;
    TrimLeftSkips("\n", rest, LineEnds);
  }

  lemma ReadRestOf(c: string, lines: seq<string>, tail: string)
    requires lines != [] && forall i | 0 <= i < |lines| :: FrontLine(lines[i])
    ensures ReadRest(c, JoinLines(lines) + ("\n---" + tail))
         == Parsed(Lookup(lines, "slug"), Lookup(lines, "title"), TrimLeft(tail, LineEnds))
  {
    IndexOfEnd(lines, tail);
    SplitJoin(lines);
    RestCut(c, JoinLines(lines), tail, lines);
  }

  lemma RestCut(c: string, front: string, tail: string, lines: seq<string>)
    requires Index(front + ("\n---" + tail), "\n---") == Some(|front|) && SplitLines(front) == lines
    ensures ReadRest(c, front + ("\n---" + tail))
         == Parsed(Lookup(lines, "slug"), Lookup(lines, "title"), TrimLeft(tail, LineEnds))
  {
    var rest := front + ("\n---" + tail);
    assert rest[..|front|] == front && rest[|front| + 4..] == tail;
  }

  lemma FrontLinesFit(a: Article, printable: char -> bool)
    requires Exportable(a) && !printable('\n')
    ensures forall i | 0 <= i < 6 ::
              FrontLine(FrontLines(a, printable)[i]) && FrontLines(a, printable)[i][0] != '\r'
  {
    EscapedOneLine(a.title, printable);
    assert OneLine(Quoted(a.title, printable));
    FrontLineOf("title", Quoted(a.title, printable));
    FrontLineOf("slug", a.slug);
    FrontLineOf("author", a.author);
    FrontLineOf("revision", Decimal(a.revision));
    FrontLineOf("created", a.created);
    FrontLineOf("updated", a.updated);
  }

  lemma FrontLineOf(name: string, value: string)
    requires OneLine(value) && OneLine(name) && name != "" && name[0] != '-' && name[0] != '\r'
    ensures FrontLine(Line(name, value)) && Line(name, value)[0] != '\r'
  {
  }

  /** Export then parse, for every exportable article: the slug and the quoted
      title come back trimmed, the body in normal form, even if the body has
      `---` lines of its own. */
  lemma ExportParse(a: Article, printable: char -> bool)
    requires Exportable(a) && !printable('\n')
    ensures Read(Rendered(a, printable))
         == Parsed(Trim(TrimSpace(a.slug), Quotes), Trim(Quoted(a.title, printable), Quotes), NormalBody(a.body))
  {
    TrimFile(a, printable);
    FrontLinesFit(a, printable);
    ReadHead(FrontLines(a, printable), TrimRight("\n\n" + EndLine(a.body), Blanks), Rendered(a, printable));
    BodyComesBack(a.body);
    LookupFront(a, printable);
  }

  /** Looking a key up past one more printed line. */
  lemma LookupLine(lines: seq<string>, name: string, value: string, key: string)
    requires name != "" && forall i | 0 <= i < |name| :: name[i] != ':' && !IsSpace(name[i])
    ensures name == key ==> Lookup(lines + [Line(name, value)], key) == Trim(TrimSpace(value), Quotes)
    ensures name != key ==> Lookup(lines + [Line(name, value)], key) == Lookup(lines, key)
  {
    FieldOf(name, value);
    assert (lines + [Line(name, value)])[..|lines|] == lines;
  }

  lemma LookupFront(a: Article, printable: char -> bool)
    ensures var lines := FrontLines(a, printable);
            && Lookup(lines, "slug") == Trim(TrimSpace(a.slug), Quotes)
            && Lookup(lines, "title") == Trim(Quoted(a.title, printable), Quotes)
  {
    var q := Quoted(a.title, printable);
    assert Clean(q, Blanks);
    TrimClean(q, Blanks);
    LookupFirstTwo(q, a.slug);
    LookupSkips([Line("title", q), Line("slug", a.slug)], a, "slug");
    LookupSkips([Line("title", q), Line("slug", a.slug)], a, "title");
    FrontInOrder(a, printable);
  }

  lemma FrontInOrder(a: Article, printable: char -> bool)
    ensures FrontLines(a, printable)
         == [Line("title", Quoted(a.title, printable)), Line("slug", a.slug)] + [Line("author", a.author)]
            + [Line("revision", Decimal(a.revision))] + [Line("created", a.created)] + [Line("updated", a.updated)]
  {
  }

  lemma LookupFirstTwo(title: string, slug: string)
    ensures Lookup([Line("title", title), Line("slug", slug)], "slug") == Trim(TrimSpace(slug), Quotes)
    ensures Lookup([Line("title", title), Line("slug", slug)], "title") == Trim(TrimSpace(title), Quotes)
  {
    var one := [Line("title", title)];
    assert [Line("title", title), Line("slug", slug)] == one + [Line("slug", slug)];
    assert one == [] + [Line("title", title)];
    LookupLine(one, "slug", slug, "slug");
    calc {
      Lookup(one + [Line("slug", slug)], "title");
      { LookupLine(one, "slug", slug, "title"); assert "slug"[0] != "title"[0]; }
      Lookup(one, "title");
      { LookupLine([], "title", title, "title"); }
      Trim(TrimSpace(title), Quotes);
    }
  }

  /** The last four lines concern neither the slug nor the title. */
  lemma LookupSkips(lines: seq<string>, a: Article, key: string)
    requires key == "slug" || key == "title"
    ensures Lookup(lines + [Line("author", a.author)] + [Line("revision", Decimal(a.revision))]
                   + [Line("created", a.created)] + [Line("updated", a.updated)], key)
         == Lookup(lines, key)
  {
    assert "author"[0] != key[0] && "revision"[0] != key[0] && "created"[0] != key[0] && "updated"[0] != key[0];
    var l1 := lines + [Line("author", a.author)];
    var l2 := l1 + [Line("revision", Decimal(a.revision))];
    var l3 := l2 + [Line("created", a.created)];
    calc {
      Lookup(l3 + [Line("updated", a.updated)], key);
      { LookupLine(l3, "updated", a.updated, key); }
      Lookup(l3, key);
      { LookupLine(l2, "created", a.created, key); }
      Lookup(l2, key);
      { LookupLine(l1, "revision", Decimal(a.revision), key); }
      Lookup(l1, key);
      { LookupLine(lines, "author", a.author, key); }
      Lookup(lines, key);
    }
  }

  // ------------------------------------------------------- exactly when it is lossless

  lemma TrimNeverGrows(s: string, p: Cut)
    ensures |Trim(s, p)| <= |s| && (|Trim(s, p)| == |s| ==> Trim(s, p) == s)
  {
    var a := TrimLeftSplits(s, p);
    var b := TrimRightSplits(TrimLeft(s, p), p);
  }

  /** The slug survives exactly when it has no blanks and no quotes around it. */
  lemma SlugSurvives(slug: string)
    ensures Trim(TrimSpace(slug), Quotes) == slug <==> Clean(slug, Blanks) && Clean(slug, Quotes)
  {
    TrimNeverGrows(slug, Blanks);
    TrimNeverGrows(TrimSpace(slug), Quotes);
    TrimClean(slug, Blanks);
    TrimClean(slug, Quotes);
  }

  function Backslashes(s: string): nat {
    if s == "" then 0 else Backslashes(s[..|s| - 1]) + if s[|s| - 1] == '\\' then 1 else 0
  }

  lemma {:induction false} BackslashesAdd(a: string, b: string)
    ensures Backslashes(a + b) == Backslashes(a) + Backslashes(b)
    decreases |b|
  {
    if b == "" {
      assert a + b == a;
    } else {
      assert (a + b)[..|a + b| - 1] == a + b[..|b| - 1];
      BackslashesAdd(a, b[..|b| - 1]);
    }
  }

  lemma {:induction false} NoBackslashes(s: string)
    requires forall i | 0 <= i < |s| :: s[i] != '\\'
    ensures Backslashes(s) == 0
    decreases |s|
  {
    if s != "" {
      NoBackslashes(s[..|s| - 1]);
    }
  }

  /** Escaping adds backslashes, and leaves the text alone only if it adds none. */
  lemma {:induction false} EscapingShows(s: string, printable: char -> bool)
    ensures if Unescaped(s, printable) then EscapeAll(s, printable) == s
            else Backslashes(EscapeAll(s, printable)) > Backslashes(s)
    decreases |s|
  {
    if s != "" {
      var init, c := s[..|s| - 1], s[|s| - 1];
      assert s == init + [c];
      EscapingShows(init, printable);
      BackslashesAdd(EscapeAll(init, printable), Escape(c, printable));
      EscapeAdds(c, printable);
      if Unescaped(init, printable) {
        assert Unescaped(s, printable) <==> printable(c) && c != '"' && c != '\\';
      } else if Unescaped(s, printable) {
        UnescapedPrefix(s, printable);
        assert false;
      }
    }
  }

  lemma UnescapedPrefix(s: string, printable: char -> bool)
    requires s != "" && Unescaped(s, printable)
    ensures Unescaped(s[..|s| - 1], printable)
  {
  }

  lemma EscapeAdds(c: char, printable: char -> bool)
    ensures var n := Backslashes(Escape(c, printable));
            if printable(c) && c != '"' && c != '\\' then Escape(c, printable) == [c] && n == 0
            else n > if c == '\\' then 1 else 0
  {
    var e := Escape(c, printable);
    if !(printable(c) && c != '"' && c != '\\') {
      assert e[0] == '\\';
      assert e == e[..1] + e[1..];
      BackslashesAdd(e[..1], e[1..]);
      assert Backslashes(e[..1]) == 1;
      if c == '\\' {
        assert Backslashes(e[1..]) == 1;
      }
    } else {
      assert [c][..0] == "";
    }
  }

  lemma TrimKeepsBackslashes(s: string)
    ensures Backslashes(Trim(s, Quotes)) == Backslashes(s)
  {
    var a := TrimLeftSplits(s, Quotes);
    var l := TrimLeft(s, Quotes);
    var b := TrimRightSplits(l, Quotes);
    BackslashesAdd(a, l);
    BackslashesAdd(TrimRight(l, Quotes), b);
    NoBackslashes(a);
    NoBackslashes(b);
  }

  /** The title survives exactly when quoting leaves it alone and it has no
      single quote at either end. */
  lemma TitleSurvives(title: string, printable: char -> bool)
    ensures Trim(Quoted(title, printable), Quotes) == title
       <==> Unescaped(title, printable) && Clean(title, Quotes)
  {
    var e := EscapeAll(title, printable);
    EscapingShows(title, printable);
    if Unescaped(title, printable) {
      QuotesOff(title);
      TrimClean(title, Quotes);
    } else {
      TrimKeepsBackslashes(Quoted(title, printable));
      BackslashesAdd("\"" + e, "\"");
      BackslashesAdd("\"", e);
    }
  }

  lemma QuotesOff(s: string)
    ensures Trim("\"" + s + "\"", Quotes) == Trim(s, Quotes)
  {
    var l := TrimLeft(s, Quotes);
    var a := TrimLeftSplits(s, Quotes);
    assert "\"" + s + "\"" == ("\"" + a) + (l + "\"");
    TrimLeftSkips("\"" + a, l + "\"", Quotes);
    TrimRightSkips(l, "\"", Quotes);
    if l == "" {
      assert l + "\"" == "\"";
      assert TrimLeft("\"", Quotes) == "";
    } else {
      assert (l + "\"")[0] == l[0];
    }
  }

  predicate Lossless(a: Article, printable: char -> bool) {
    && Clean(a.slug, Blanks) && Clean(a.slug, Quotes)
    && Unescaped(a.title, printable) && Clean(a.title, Quotes)
  }

  /** Slug and title both come back exactly for these articles; the body does up
      to its normal form; and a second export and parse changes nothing more. */
  lemma RoundTrip(a: Article, printable: char -> bool)
    requires Exportable(a) && !printable('\n')
    ensures var p := Read(Rendered(a, printable));
            && (p.slug == a.slug && p.title == a.title <==> Lossless(a, printable))
            && p.body == NormalBody(a.body)
            && (Lossless(a, printable) ==> Read(Rendered(a.(slug := p.slug, title := p.title, body := p.body), printable)) == p)
  {
    ExportParse(a, printable);
    SlugSurvives(a.slug);
    TitleSurvives(a.title, printable);
    if Lossless(a, printable) {
      var b := a.(body := NormalBody(a.body));
      ExportParse(b, printable);
      NormalBodyStable(a.body);
    }
  }

  // ------------------------------------------------------- import

  const SUFFIX := ".md"

  predicate EndsWith(s: string, suffix: string) {
    |suffix| <= |s| && s[|s| - |suffix|..] == suffix
  }

  function TrimSuffix(s: string, suffix: string): string {
    if EndsWith(s, suffix) then s[..|s| - |suffix|] else s
  }

  /** What the importer stores for a file: the file name stands in for a missing
      slug, the slug for a missing title. */
  method ImportFile(name: string, content: string) returns (p: Parsed)
    ensures Unfenced(content) ==> p == Parsed(TrimSuffix(name, ".md"), TrimSuffix(name, ".md"), TrimSpace(content))
    ensures p.body == Read(content).body
    ensures p.slug == if Read(content).slug == "" then TrimSuffix(name, SUFFIX) else Read(content).slug
    ensures p.title == if Read(content).title == "" then p.slug else Read(content).title
  {
    p := ParseFrontmatter(content);
    if Unfenced(content) {
      ReadUnfenced(content);
    }
    var slug, title := p.slug, p.title;
    if slug == "" {
      slug := TrimSuffix(name, SUFFIX);
    }
    if title == "" {
      title := slug;
    }
    p := Parsed(slug, title, p.body);
  }

  /** Exporting an article to its file and importing that file. */
  method ExportImport(a: Article, printable: char -> bool) returns (p: Parsed)
    requires Exportable(a) && !printable('\n')
    ensures Lossless(a, printable) ==>
              p == Parsed(a.slug, if a.title == "" then a.slug else a.title, NormalBody(a.body))
  {
    var content := FormatArticleExport(a, printable);
    p := ImportFile(a.slug + SUFFIX, content);
    RoundTrip(a, printable);
    assert TrimSuffix(a.slug + SUFFIX, SUFFIX) == a.slug;
  }
}
