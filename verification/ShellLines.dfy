/** What the words of a command line are, told from how a line is made of them. */
module ShellLines {
  import opened Quoting
  import opened Results

  /** A character between double quotes: one that stands for itself, one of \ " ` behind a backslash that
      goes, or any other one behind a backslash that stays. */
  datatype Item = Raw(c: char) | Protected(c: char) | Kept(c: char)

  /** A part of a word: a character, a character behind a backslash, or text in single or in double quotes. */
  datatype Part = Plain(c: char) | Escaped(c: char) | Single(text: string) | Double(items: seq<Item>)

  /** Blanks, a word and what follows; at last only blanks. */
  datatype Line = Over(blanks: string) | Then(blanks: string, word: seq<Part>, rest: Line)

  /** Space, tab, carriage return and newline. */
  predicate OnlyBlanks(s: string) {
    forall i :: 0 <= i < |s| ==> s[i] in " \t\r\n"
  }

  predicate ValidItem(i: Item) {
    match i
    case Raw(c) => c !in "\\\""
    case Protected(c) => c in "\\\"`"
    case Kept(c) => c !in "\\\"`"
  }

  predicate ValidPart(p: Part) {
    match p
    case Plain(c) => c !in " \t\r\n\\\"'"
    case Escaped(_) => true
    case Single(text) => '\'' !in text
    case Double(items) => forall i :: 0 <= i < |items| ==> ValidItem(items[i])
  }

  predicate ValidWord(word: seq<Part>) {
    forall i :: 0 <= i < |word| ==> ValidPart(word[i])
  }

  /** Words have parts, and blanks between them. */
  predicate Valid(line: Line) {
    OnlyBlanks(line.blanks)
    && (line.Then? ==> line.word != [] && ValidWord(line.word) && Valid(line.rest)
                       && (line.rest.Then? ==> line.rest.blanks != ""))
  }

  /* ----- how a line is written ----- */

  function ItemWritten(i: Item): string {
    match i
    case Raw(c) => [c]
    case Protected(c) => ['\\', c]
    case Kept(c) => ['\\', c]
  }

  function ItemsWritten(items: seq<Item>): string {
    if items == [] then "" else ItemWritten(items[0]) + ItemsWritten(items[1..])
  }

  function PartWritten(p: Part): string {
    match p
    case Plain(c) => [c]
    case Escaped(c) => ['\\', c]
    case Single(text) => "'" + (text + "'")
    case Double(items) => "\"" + (ItemsWritten(items) + "\"")
  }

  function WordWritten(word: seq<Part>): string {
    if word == [] then "" else PartWritten(word[0]) + WordWritten(word[1..])
  }

  function Written(line: Line): string {
    line.blanks + if line.Over? then "" else WordWritten(line.word) + Written(line.rest)
  }

  /* ----- what it says ----- */

  function ItemText(i: Item): string {
    match i
    case Raw(c) => [c]
    case Protected(c) => [c]
    case Kept(c) => ['\\', c]
  }

  function ItemsText(items: seq<Item>): string {
    if items == [] then "" else ItemText(items[0]) + ItemsText(items[1..])
  }

  function PartText(p: Part): string {
    match p
    case Plain(c) => [c]
    case Escaped(c) => [c]
    case Single(text) => text
    case Double(items) => ItemsText(items)
  }

  function WordText(word: seq<Part>): string {
    if word == [] then "" else PartText(word[0]) + WordText(word[1..])
  }

  function Texts(line: Line): seq<string> {
    if line.Over? then [] else [WordText(line.word)] + Texts(line.rest)
  }

  /* ----- reading what was written ----- */

  lemma Cons(c: char, s: string)
    ensures ([c] + s)[0] == c && ([c] + s)[1..] == s
  {
  }

  lemma FirstOf(a: string, b: string)
    requires a != ""
    ensures (a + b)[0] == a[0] && (a + b)[1..] == a[1..] + b
  {
  }

  lemma {:induction false} BlanksRead(blanks: string, s: string)
    requires OnlyBlanks(blanks)
    ensures Lex(true, Blank, "", false, blanks + s) == Lex(true, Blank, "", false, s)
  {
    if blanks == "" {
      assert blanks + s == s;
    } else {
      FirstOf(blanks, s);
      BlanksRead(blanks[1..], s);
    }
  }

  lemma {:induction false} SingleRead(token: string, quoted: bool, text: string, s: string)
    requires '\'' !in text
    ensures Lex(true, Quote('\''), token, quoted, text + ("'" + s)) == Lex(true, Word, token + text, true, s)
    decreases text
  {
    if text == "" {
      assert text + ("'" + s) == "'" + s && token + text == token;
      Cons('\'', s);
    } else {
      FirstOf(text, "'" + s);
      SingleRead(token + [text[0]], true, text[1..], s);
      assert token + [text[0]] + text[1..] == token + text;
    }
  }

  lemma ItemRead(token: string, quoted: bool, item: Item, s: string)
    requires ValidItem(item)
    ensures Lex(true, Quote('"'), token, quoted, ItemWritten(item) + s)
         == Lex(true, Quote('"'), token + ItemText(item), true, s)
  {
    if item.Raw? {
      Cons(item.c, s);
    } else {
      assert ItemWritten(item) + s == ['\\'] + ([item.c] + s);
      Cons('\\', [item.c] + s);
      Cons(item.c, s);
      assert ItemText(item) == EscapedText(true, true, item.c);
    }
  }

  lemma {:induction false} DoubleRead(token: string, quoted: bool, items: seq<Item>, s: string)
    requires forall i :: 0 <= i < |items| ==> ValidItem(items[i])
    ensures Lex(true, Quote('"'), token, quoted, ItemsWritten(items) + ("\"" + s))
         == Lex(true, Word, token + ItemsText(items), true, s)
    decreases items
  {
    if items == [] {
      assert ItemsWritten(items) + ("\"" + s) == "\"" + s && token + ItemsText(items) == token;
      Cons('"', s);
    } else {
      var item, rest := items[0], items[1..];
      assert ItemsWritten(items) + ("\"" + s) == ItemWritten(item) + (ItemsWritten(rest) + ("\"" + s));
      ItemRead(token, quoted, item, ItemsWritten(rest) + ("\"" + s));
      DoubleRead(token + ItemText(item), true, rest, s);
      assert token + ItemText(item) + ItemsText(rest) == token + ItemsText(items);
    }
  }

  predicate InQuotes(p: Part) {
    p.Single? || p.Double?
  }

  lemma SingleStarts(token: string, quoted: bool, text: string, s: string)
    requires '\'' !in text
    ensures Lex(true, Word, token, quoted, "'" + (text + "'") + s) == Lex(true, Word, token + text, true, s)
  {
    assert "'" + (text + "'") + s == ['\''] + (text + ("'" + s));
    Cons('\'', text + ("'" + s));
    SingleRead(token, quoted, text, s);
  }

  lemma DoubleStarts(token: string, quoted: bool, items: seq<Item>, s: string)
    requires forall i :: 0 <= i < |items| ==> ValidItem(items[i])
    ensures Lex(true, Word, token, quoted, "\"" + (ItemsWritten(items) + "\"") + s)
         == Lex(true, Word, token + ItemsText(items), true, s)
  {
    assert "\"" + (ItemsWritten(items) + "\"") + s == ['"'] + (ItemsWritten(items) + ("\"" + s));
    Cons('"', ItemsWritten(items) + ("\"" + s));
    DoubleRead(token, quoted, items, s);
  }

  lemma EscapedRead(token: string, quoted: bool, c: char, s: string)
    ensures Lex(true, Word, token, quoted, ['\\', c] + s) == Lex(true, Word, token + [c], quoted, s)
  {
    assert ['\\', c] + s == ['\\'] + ([c] + s);
    Cons('\\', [c] + s);
    Cons(c, s);
  }

  lemma PlainRead(token: string, quoted: bool, c: char, s: string)
    requires ValidPart(Plain(c))
    ensures Lex(true, Word, token, quoted, [c] + s) == Lex(true, Word, token + [c], quoted, s)
  {
    Cons(c, s);
  }

  lemma PartRead(token: string, quoted: bool, p: Part, s: string)
    requires ValidPart(p)
    ensures Lex(true, Word, token, quoted, PartWritten(p) + s)
         == Lex(true, Word, token + PartText(p), quoted || InQuotes(p), s)
  {
    hide Lex;
    match p
    case Plain(c) => PlainRead(token, quoted, c, s);
    case Escaped(c) => EscapedRead(token, quoted, c, s);
    case Single(text) => SingleStarts(token, quoted, text, s);
    case Double(items) => DoubleStarts(token, quoted, items, s);
  }

  ghost predicate HasQuotes(word: seq<Part>) {
    exists i :: 0 <= i < |word| && InQuotes(word[i])
  }

  lemma {:induction false} WordRead(token: string, quoted: bool, word: seq<Part>, s: string)
    requires ValidWord(word)
    ensures Lex(true, Word, token, quoted, WordWritten(word) + s)
         == Lex(true, Word, token + WordText(word), quoted || HasQuotes(word), s)
    decreases word
  {
    if word == [] {
      assert WordWritten(word) + s == s && token + WordText(word) == token;
    } else {
      var p, rest := word[0], word[1..];
      assert WordWritten(word) + s == PartWritten(p) + (WordWritten(rest) + s);
      PartRead(token, quoted, p, WordWritten(rest) + s);
      WordRead(token + PartText(p), quoted || InQuotes(p), rest, s);
      assert token + PartText(p) + WordText(rest) == token + WordText(word);
      assert HasQuotes(word) <==> InQuotes(p) || HasQuotes(rest) by {
        if i :| 0 <= i < |word| && InQuotes(word[i]) {
          assert i > 0 ==> rest[i - 1] == word[i];
        }
        if i :| 0 <= i < |rest| && InQuotes(rest[i]) {
          assert word[i + 1] == rest[i];
        }
      }
    }
  }

  /** A word starts with no blank, and reading it starts a word. */
  lemma WordStarts(word: seq<Part>, s: string)
    requires word != [] && ValidWord(word)
    ensures Lex(true, Blank, "", false, WordWritten(word) + s) == Lex(true, Word, "", false, WordWritten(word) + s)
    ensures WordText(word) != "" || HasQuotes(word)
  {
    var p := word[0];
    FirstOf(PartWritten(p), WordWritten(word[1..]));
    FirstOf(WordWritten(word), s);
    assert "" + [WordWritten(word)[0]] == [WordWritten(word)[0]];
  }

  /** Every line that is made of words and blanks is read as those words. */
  lemma {:induction false} LineRead(line: Line)
    requires Valid(line)
    ensures ShellWords(Written(line)) == Success(Texts(line))
  {
    if line.Over? {
      BlanksRead(line.blanks, "");
    } else {
      var s := Written(line.rest);
      BlanksRead(line.blanks, WordWritten(line.word) + s);
      WordStarts(line.word, s);
      WordRead("", false, line.word, s);
      assert "" + WordText(line.word) == WordText(line.word);
      LineRead(line.rest);
      WordOver(WordText(line.word), HasQuotes(line.word), line.rest);
    }
  }

  lemma WordOver(text: string, quoted: bool, rest: Line)
    requires Valid(rest) && (rest.Then? ==> rest.blanks != "") && (text != "" || quoted)
    requires ShellWords(Written(rest)) == Success(Texts(rest))
    ensures Lex(true, Word, text, quoted, Written(rest)) == Success([text] + Texts(rest))
  {
    if rest.blanks == "" {
      assert Written(rest) == "" && [text] + [] == [text];
    } else {
      var tail := if rest.Over? then "" else WordWritten(rest.word) + Written(rest.rest);
      FirstOf(rest.blanks, tail);
      BlanksRead(rest.blanks[1..], tail);
      BlanksRead(rest.blanks, tail);
    }
  }

  /* ----- every line that can be read is one ----- */

  lemma {:induction false} SingleEnds(token: string, quoted: bool, s: string) returns (text: string, rest: string)
    requires Lex(true, Quote('\''), token, quoted, s).Success?
    ensures '\'' !in text && s == text + ("'" + rest)
    decreases s
  {
    if s[0] == '\'' {
      text, rest := "", s[1..];
    } else {
      text, rest := SingleEnds(token + [s[0]], true, s[1..]);
      text := [s[0]] + text;
    }
  }

  lemma ItemsCons(item: Item, later: seq<Item>, tail: string)
    ensures ItemsWritten([item] + later) + tail == ItemWritten(item) + (ItemsWritten(later) + tail)
  {
    assert ([item] + later)[1..] == later;
  }

  lemma {:induction false} DoubleEnds(token: string, quoted: bool, s: string) returns (items: seq<Item>, rest: string)
    requires Lex(true, Quote('"'), token, quoted, s).Success?
    ensures (forall i :: 0 <= i < |items| ==> ValidItem(items[i])) && s == ItemsWritten(items) + ("\"" + rest)
    decreases s
  {
    if s[0] == '"' {
      items, rest := [], s[1..];
      assert s == "" + ("\"" + rest);
    } else {
      var item, after := ItemEnds(token, quoted, s);
      hide Lex;
      var later;
      later, rest := DoubleEnds(token + ItemText(item), true, after);
      items := [item] + later;
      ItemsCons(item, later, "\"" + rest);
    }
  }

  lemma ItemEnds(token: string, quoted: bool, s: string) returns (item: Item, after: string)
    requires Lex(true, Quote('"'), token, quoted, s).Success? && s[0] != '"'
    ensures ValidItem(item) && s == ItemWritten(item) + after && |after| < |s|
    ensures Lex(true, Quote('"'), token + ItemText(item), true, after).Success?
  {
    if s[0] == '\\' {
      var c := s[1];
      item, after := if c in "\\\"`" then Protected(c) else Kept(c), s[2..];
    } else {
      item, after := Raw(s[0]), s[1..];
    }
    assert s == ItemWritten(item) + after;
    ItemRead(token, quoted, item, after);
  }

  lemma PartEnds(token: string, quoted: bool, s: string) returns (p: Part, rest: string)
    requires s != "" && !Whitespace(s[0]) && Lex(true, Word, token, quoted, s).Success?
    ensures ValidPart(p) && s == PartWritten(p) + rest
  {
    if s[0] == '\'' {
      var text;
      text, rest := SingleEnds(token, quoted, s[1..]);
      p := Single(text);
      assert s == "'" + (text + ("'" + rest)) == "'" + (text + "'") + rest;
    } else if s[0] == '"' {
      var items;
      items, rest := DoubleEnds(token, quoted, s[1..]);
      p := Double(items);
      assert s == "\"" + (ItemsWritten(items) + ("\"" + rest)) == "\"" + (ItemsWritten(items) + "\"") + rest;
    } else if s[0] == '\\' {
      p, rest := Escaped(s[1]), s[2..];
    } else {
      p, rest := Plain(s[0]), s[1..];
    }
  }

  lemma WordCons(p: Part, later: seq<Part>, tail: string)
    ensures WordWritten([p] + later) + tail == PartWritten(p) + (WordWritten(later) + tail)
    ensures PartWritten(p) != ""
  {
    assert ([p] + later)[1..] == later;
  }

  lemma {:induction false} WordEnds(token: string, quoted: bool, s: string) returns (word: seq<Part>, rest: string)
    requires Lex(true, Word, token, quoted, s).Success?
    ensures ValidWord(word) && s == WordWritten(word) + rest && (rest == "" || Whitespace(rest[0]))
    ensures ShellWords(rest).Success? && (word == [] ==> s == "" || Whitespace(s[0]))
    decreases |s|
  {
    if s == "" || Whitespace(s[0]) {
      word, rest := [], s;
    } else {
      var p, after := PartEnds(token, quoted, s);
      PartRead(token, quoted, p, after);
      hide Lex;
      WordCons(p, [], after);
      var later;
      later, rest := WordEnds(token + PartText(p), quoted || InQuotes(p), after);
      word := [p] + later;
      WordCons(p, later, rest);
    }
  }

  /** The line with one more blank in front. */
  function WithBlank(c: char, line: Line): Line {
    if line.Over? then Over([c] + line.blanks) else Then([c] + line.blanks, line.word, line.rest)
  }

  lemma BlankBefore(c: char, line: Line)
    requires Valid(line) && Whitespace(c)
    ensures Valid(WithBlank(c, line)) && Written(WithBlank(c, line)) == [c] + Written(line)
  {
    var tail := if line.Over? then "" else WordWritten(line.word) + Written(line.rest);
    assert [c] + line.blanks + tail == [c] + (line.blanks + tail);
  }

  lemma WordBefore(word: seq<Part>, rest: Line)
    requires word != [] && ValidWord(word) && Valid(rest) && (rest.blanks == "" ==> Written(rest) == "")
    ensures Valid(Then("", word, rest)) && Written(Then("", word, rest)) == WordWritten(word) + Written(rest)
  {
    if rest.Then? {
      WordCons(rest.word[0], rest.word[1..], Written(rest.rest));
      assert [rest.word[0]] + rest.word[1..] == rest.word;
    }
    assert "" + (WordWritten(word) + Written(rest)) == WordWritten(word) + Written(rest);
  }

  lemma WordBegins(s: string)
    requires s != "" && !Whitespace(s[0])
    ensures ShellWords(s) == Lex(true, Word, "", false, s)
  {
    assert "" + [s[0]] == [s[0]];
  }

  lemma {:induction false} LineEnds(s: string) returns (line: Line)
    requires ShellWords(s).Success?
    ensures Valid(line) && Written(line) == s
    ensures s != "" && Whitespace(s[0]) ==> line.blanks != ""
    decreases |s|
  {
    if s == "" {
      line := Over("");
    } else if Whitespace(s[0]) {
      var rest := LineEnds(s[1..]);
      BlankBefore(s[0], rest);
      line := WithBlank(s[0], rest);
    } else {
      var word, after := FirstWord(s);
      var rest := LineEnds(after);
      WordBefore(word, rest);
      line := Then("", word, rest);
    }
  }

  lemma FirstWord(s: string) returns (word: seq<Part>, after: string)
    requires s != "" && !Whitespace(s[0]) && ShellWords(s).Success?
    ensures word != [] && ValidWord(word) && s == WordWritten(word) + after && |after| < |s|
    ensures ShellWords(after).Success? && (after == "" || Whitespace(after[0]))
  {
    WordBegins(s);
    word, after := WordEnds("", false, s);
    WordCons(word[0], word[1..], after);
    assert [word[0]] + word[1..] == word;
  }

  /** A line gives these words if and only if it is written as them: all other lines end in an open
      quote or with a single backslash. */
  lemma WordsIff(s: string, texts: seq<string>)
    ensures ShellWords(s) == Success(texts) <==>
            exists line :: Valid(line) && Written(line) == s && Texts(line) == texts
  {
    if ShellWords(s) == Success(texts) {
      var line := LineEnds(s);
      LineRead(line);
    }
    if line :| Valid(line) && Written(line) == s && Texts(line) == texts {
      LineRead(line);
    }
  }

  /* ----- the client ----- */

  lemma {:induction false} NothingMisread(state: State, after: bool, s: string)
    requires '`' !in s
    ensures !Misreads(state, after, s)
    decreases s
  {
    if s != "" {
      assert '`' !in s[1..];
      forall next: State, a | true ensures !Misreads(next, a, s[1..]) {
        NothingMisread(next, a, s[1..]);
      }
    }
  }

  /** The client reads every line without backticks as its words. */
  lemma ClientReads(line: Line)
    requires Valid(line) && '`' !in Written(line)
    ensures ParseCommandLine(Written(line)) == Success(Texts(line))
  {
    LineRead(line);
    NothingMisread(Blank, false, Written(line));
    ReadsAsShellIff(Written(line));
  }
}
