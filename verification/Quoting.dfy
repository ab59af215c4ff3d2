/** Command-line quoting: `escapeForCommand` on the server, `parse_command_line` in the client,
    with Python's `shlex.split` (POSIX mode) between them. */
module Quoting {

  import opened Results

  /** `s.replace(old, new)` for a one-character `old`. */
  function Replace(s: string, old_: char, new_: string): string {
    if s == "" then "" else (if s[0] == old_ then new_ else [s[0]]) + Replace(s[1..], old_, new_)
  }

  function EscapeForCommand(s: string): string {
    Replace(Replace(Replace(s, '\\', "\\\\"), '"', "\\\""), '`', "\\`")
  }

  predicate Special(c: char) {
    c == '\\' || c == '"' || c == '`'
  }

  /** The same in one pass: a backslash before each of the three special characters. */
  function Escaped(s: string): string {
    if s == "" then "" else (if Special(s[0]) then ['\\', s[0]] else [s[0]]) + Escaped(s[1..])
  }

  lemma {:induction false} ReplaceConcat(a: string, b: string, old_: char, new_: string)
    ensures Replace(a + b, old_, new_) == Replace(a, old_, new_) + Replace(b, old_, new_)
  {
    if a == "" {
      assert a + b == b;
    } else {
      assert (a + b)[1..] == a[1..] + b;
      ReplaceConcat(a[1..], b, old_, new_);
    }
  }

  /** The three passes do not disturb each other. */
  lemma {:induction false} ThreePassesAreOne(s: string)
    ensures EscapeForCommand(s) == Escaped(s)
  {
    if s != "" {
      var c, rest := [s[0]], s[1..];
      ThreePassesAreOne(rest);
      assert s == c + rest;
      var one := Replace(c, '\\', "\\\\");
      ReplaceConcat(c, rest, '\\', "\\\\");
      var two := Replace(one, '"', "\\\"");
      ReplaceConcat(one, Replace(rest, '\\', "\\\\"), '"', "\\\"");
      ReplaceConcat(two, Replace(Replace(rest, '\\', "\\\\"), '"', "\\\""), '`', "\\`");
      assert EscapeForCommand(s) == EscapeForCommand(c) + EscapeForCommand(rest);
      EscapeOne(s[0]);
    }
  }

  lemma ReplaceOne(c: char, old_: char, new_: string)
    ensures Replace([c], old_, new_) == if c == old_ then new_ else [c]
  {
    assert [c][1..] == "";
  }

  lemma EscapeOne(c: char)
    ensures EscapeForCommand([c]) == if Special(c) then ['\\', c] else [c]
  {
    ReplaceOne(c, '\\', "\\\\");
    ReplaceOne(c, '"', "\\\"");
    ReplaceOne(c, '`', "\\`");
    assert forall d: char :: ["\\"[0], d] == "\\" + [d];
    ReplaceConcat("\\", "\\", '"', "\\\"");
    ReplaceConcat("\\", "\\", '`', "\\`");
    ReplaceConcat("\\", "\"", '`', "\\`");
    ReplaceOne('\\', '"', "\\\"");
    ReplaceOne('\\', '`', "\\`");
    ReplaceOne('"', '`', "\\`");
  }

  /** The states of the lexer: between words, in a word, in quotes, after a backslash (which
      returns to a word or to double quotes). */
  datatype State = Blank | Word | Quote(mark: char) | Escape(inQuotes: bool)

  predicate Whitespace(c: char) {
    c == ' ' || c == '\t' || c == '\r' || c == '\n'
  }

  predicate Mark(c: char) {
    c == '"' || c == '\''
  }

  /** `shlex.split(s)`: `token` is the word so far, `quoted` whether it had a quoted part. With
      `ticks` a backslash before a backtick in double quotes is dropped too, as a shell does. */
  function Lex(ticks: bool, state: State, token: string, quoted: bool, s: string): Result<seq<string>>
    decreases s
  {
    match state
    case Blank =>
      if s == "" then Success([])
      else if Whitespace(s[0]) then Lex(ticks, Blank, "", false, s[1..])
      else if s[0] == '\\' then Lex(ticks, Escape(false), "", false, s[1..])
      else if Mark(s[0]) then Lex(ticks, Quote(s[0]), "", false, s[1..])
      else Lex(ticks, Word, [s[0]], false, s[1..])
    case Word =>
      if s == "" then Success(Emit(token, quoted))
      else if Whitespace(s[0]) then Prepend(Emit(token, quoted), Lex(ticks, Blank, "", false, s[1..]))
      else if Mark(s[0]) then Lex(ticks, Quote(s[0]), token, quoted, s[1..])
      else if s[0] == '\\' then Lex(ticks, Escape(false), token, quoted, s[1..])
      else Lex(ticks, Word, token + [s[0]], quoted, s[1..])
    case Quote(mark) =>
      if s == "" then Failure("No closing quotation")
      else if s[0] == mark then Lex(ticks, Word, token, true, s[1..])
      else if s[0] == '\\' && mark == '"' then Lex(ticks, Escape(true), token, true, s[1..])
      else Lex(ticks, Quote(mark), token + [s[0]], true, s[1..])
    case Escape(inQuotes) =>
      if s == "" then Failure("No escaped character")
      else
        Lex(ticks, if inQuotes then Quote('"') else Word, token + EscapedText(ticks, inQuotes, s[0]), quoted, s[1..])
  }

  /** What a backslash and the character after it stand for. */
  function EscapedText(ticks: bool, inQuotes: bool, c: char): string {
    if inQuotes && c != '\\' && c != '"' && !(ticks && c == '`') then ['\\', c] else [c]
  }

  function Emit(token: string, quoted: bool): seq<string> {
    if token != "" || quoted then [token] else []
  }

  function Prepend(words: seq<string>, rest: Result<seq<string>>): Result<seq<string>> {
    if rest.Success? then Success(words + rest.value) else rest
  }

  /** `_shlex_unescape`: drop each backslash that stands before a backtick. */
  function ShlexUnescape(s: string): string {
    if s == "" then "" else
      var next := if |s| > 1 then s[1] else '.';
      (if s[0] == '\\' && next == '`' then "" else [s[0]]) + ShlexUnescape(s[1..])
  }

  function UnescapeAll(words: seq<string>): (r: seq<string>)
    ensures |r| == |words|
  {
    seq(|words|, i requires 0 <= i < |words| => ShlexUnescape(words[i]))
  }

  function ParseCommandLine(s: string): Result<seq<string>> {
    var words := Lex(false, Blank, "", false, s);
    if words.Success? then Success(UnescapeAll(words.value)) else words
  }

  /** What `shlex` makes of an escaped argument: only the backticks keep their backslash. */
  function Ticked(s: string): string {
    if s == "" then "" else (if s[0] == '`' then "\\`" else [s[0]]) + Ticked(s[1..])
  }

  lemma {:induction false} UnescapeTicked(s: string)
    ensures ShlexUnescape(Ticked(s)) == s
  {
    if s != "" {
      UnescapeTicked(s[1..]);
      var rest := Ticked(s[1..]);
      assert rest != "" ==> rest[0] != '`';
      if s[0] == '`' {
        assert Ticked(s)[1..] == "`" + rest && (("`" + rest)[1..]) == rest;
      } else {
        assert Ticked(s)[1..] == rest;
      }
    }
  }

  lemma LexOrdinary(token: string, quoted: bool, c: char, tail: string)
    requires !Special(c) || c == '`'
    ensures Lex(false, Quote('"'), token, quoted, [c] + tail) == Lex(false, Quote('"'), token + [c], true, tail)
  {
    assert ([c] + tail)[1..] == tail;
  }

  lemma LexSpecial(token: string, quoted: bool, c: char, tail: string)
    requires Special(c)
    ensures Lex(false, Quote('"'), token, quoted, "\\" + ([c] + tail)) ==
            Lex(false, Quote('"'), token + Ticked([c]), true, tail)
  {
    assert ("\\" + ([c] + tail))[1..] == [c] + tail && ([c] + tail)[1..] == tail;
    assert [c][1..] == "";
    assert Ticked([c]) == EscapedText(false, true, c);
  }

  /** Inside double quotes the lexer undoes the escaping, backticks aside. */
  lemma {:induction false} LexEscaped(token: string, quoted: bool, s: string, rest: string)
    ensures Lex(false, Quote('"'), token, quoted, Escaped(s) + ("\"" + rest)) ==
            Lex(false, Word, token + Ticked(s), true, rest)
    decreases s
  {
    if s == "" {
      assert Escaped(s) + ("\"" + rest) == "\"" + rest && ("\"" + rest)[1..] == rest;
      assert token + Ticked(s) == token;
    } else {
      var c, tail := s[0], Escaped(s[1..]) + ("\"" + rest);
      assert [c][1..] == "";
      if Special(c) {
        assert Escaped(s) + ("\"" + rest) == "\\" + ([c] + tail);
        LexSpecial(token, quoted, c, tail);
      } else {
        assert Escaped(s) + ("\"" + rest) == [c] + tail;
        LexOrdinary(token, quoted, c, tail);
        assert Ticked([c]) == [c];
      }
      LexEscaped(token + Ticked([c]), true, s[1..], rest);
      assert token + Ticked([c]) + Ticked(s[1..]) == token + Ticked(s);
    }
  }

  /** `" ".join('"%s"' % escapeForCommand(a) for a in args)` */
  function CommandLine(args: seq<string>): string {
    if args == [] then "" else
      "\"" + EscapeForCommand(args[0]) + "\"" + (if |args| == 1 then "" else " " + CommandLine(args[1..]))
  }

  function TickedAll(args: seq<string>): (r: seq<string>)
    ensures |r| == |args|
  {
    if args == [] then [] else [Ticked(args[0])] + TickedAll(args[1..])
  }

  /** One quoted argument followed by the end of the line or by a blank. */
  lemma LexArgument(arg: string, after: string)
    requires after == "" || after[0] == ' '
    ensures Lex(false, Blank, "", false, "\"" + EscapeForCommand(arg) + "\"" + after)
            == if after == "" then Success([Ticked(arg)])
               else Prepend([Ticked(arg)], Lex(false, Blank, "", false, after[1..]))
  {
    ThreePassesAreOne(arg);
    var body := Escaped(arg) + ("\"" + after);
    assert "\"" + EscapeForCommand(arg) + "\"" + after == "\"" + body && ("\"" + body)[1..] == body;
    LexEscaped("", false, arg, after);
    assert "" + Ticked(arg) == Ticked(arg);
  }

  lemma {:induction false} LexCommandLine(args: seq<string>)
    ensures Lex(false, Blank, "", false, CommandLine(args)) == Success(TickedAll(args))
  {
    if args != [] {
      var after := if |args| == 1 then "" else " " + CommandLine(args[1..]);
      LexArgument(args[0], after);
      assert CommandLine(args) == "\"" + EscapeForCommand(args[0]) + "\"" + after;
      if |args| == 1 {
        assert args[1..] == [] && TickedAll(args) == [Ticked(args[0])];
      } else {
        assert after[1..] == CommandLine(args[1..]);
        LexCommandLine(args[1..]);
      }
    }
  }

  /** Any list of arguments survives quoting and parsing. */
  lemma CommandLineRoundTrip(args: seq<string>)
    ensures ParseCommandLine(CommandLine(args)) == Success(args)
  {
    LexCommandLine(args);
    forall i | 0 <= i < |args| ensures ShlexUnescape(TickedAll(args)[i]) == args[i] {
      TickedAt(args, i);
      UnescapeTicked(args[i]);
    }
    assert UnescapeAll(TickedAll(args)) == args;
  }

  lemma {:induction false} TickedAt(args: seq<string>, i: nat)
    requires i < |args|
    ensures TickedAll(args)[i] == Ticked(args[i])
  {
    if i > 0 {
      TickedAt(args[1..], i - 1);
    }
  }

  /* ----- the client against a shell ----- */

  /** The words a shell reads, as far as blanks, quotes, backslashes and backticks decide them
      (sections 2.2.1 to 2.2.3 of the POSIX.1-2017 Shell Command Language; `$`, an escaped newline
      and command substitution are not considered). */
  function ShellWords(s: string): Result<seq<string>> {
    Lex(true, Blank, "", false, s)
  }

  /** A literal backslash is followed in its word by a backtick that is not escaped in double quotes.
      `after` tells whether the last character of the word so far is a literal backslash. */
  predicate Misreads(state: State, after: bool, s: string)
    decreases s
  {
    if s == "" then false else
      var c, rest := s[0], s[1..];
      match state
      case Blank =>
        if Whitespace(c) then Misreads(Blank, false, rest)
        else if c == '\\' then Misreads(Escape(false), false, rest)
        else if Mark(c) then Misreads(Quote(c), false, rest)
        else Misreads(Word, false, rest)
      case Word =>
        if Whitespace(c) then Misreads(Blank, false, rest)
        else if Mark(c) then Misreads(Quote(c), after, rest)
        else if c == '\\' then Misreads(Escape(false), after, rest)
        else (after && c == '`') || Misreads(Word, false, rest)
      case Quote(mark) =>
        if c == mark then Misreads(Word, after, rest)
        else if c == '\\' && mark == '"' then Misreads(Escape(true), after, rest)
        else (after && c == '`') || Misreads(Quote(mark), c == '\\', rest)
      case Escape(inQuotes) =>
        (after && c == '`' && !inQuotes) || Misreads(if inQuotes then Quote('"') else Word, c == '\\', rest)
  }

  predicate EndsInBackslash(s: string) {
    s != "" && s[|s| - 1] == '\\'
  }

  /** What the first of two characters leaves. */
  function FirstLeft(c: char, next: char): string {
    if c == '\\' && next == '`' then "" else [c]
  }

  lemma UnescapeFirst(s: string)
    requires |s| > 1
    ensures ShlexUnescape(s) == FirstLeft(s[0], s[1]) + ShlexUnescape(s[1..])
  {
  }

  lemma UnescapeTwo(a: char, c: char)
    ensures ShlexUnescape([a]) == [a] && ShlexUnescape([a] + [c]) == FirstLeft(a, c) + [c]
  {
    assert [a][1..] == "" && ([a] + [c])[1..] == [c] && [c][1..] == "";
  }

  lemma CutLast(x: string, u: string, c: char)
    requires u != ""
    ensures x + (u[..|u| - 1] + [c]) == (x + u)[..|x + u| - 1] + [c]
  {
  }

  lemma {:induction false} UnescapeSnoc(s: string, c: char)
    ensures EndsInBackslash(s) ==> ShlexUnescape(s) != ""
    ensures var u := ShlexUnescape(s);
            ShlexUnescape(s + [c]) == (if EndsInBackslash(s) && c == '`' then u[..|u| - 1] else u) + [c]
  {
    if s == "" {
      assert [c][1..] == "" && "" + [c] == [c];
    } else if |s| == 1 {
      UnescapeTwo(s[0], c);
      assert s == [s[0]];
    } else {
      var rest := s[1..];
      assert (s + [c])[1..] == rest + [c] && (s + [c])[1] == s[1] && EndsInBackslash(rest) == EndsInBackslash(s);
      UnescapeSnoc(rest, c);
      UnescapeFirst(s);
      UnescapeFirst(s + [c]);
      hide ShlexUnescape;
      hide EndsInBackslash;
      var x, u := FirstLeft(s[0], s[1]), ShlexUnescape(rest);
      hide FirstLeft;
      if EndsInBackslash(s) && c == '`' {
        CutLast(x, u, c);
      } else {
        assert x + (u + [c]) == x + u + [c];
      }
    }
  }

  /** The word so far, as shlex has it and as a shell has it: still the same for the client. */
  ghost predicate Alike(token: string, word: string) {
    ShlexUnescape(token) == word && (token == "" <==> word == "")
  }

  /** ... or the client has lost a backslash of it. */
  ghost predicate Shorter(token: string, word: string) {
    |ShlexUnescape(token)| < |word| && token != ""
  }

  lemma AddLiteral(token: string, word: string, c: char)
    ensures Alike(token, word) ==> if EndsInBackslash(token) && c == '`' then Shorter(token + [c], word + [c])
                                   else Alike(token + [c], word + [c])
    ensures Shorter(token, word) ==> Shorter(token + [c], word + [c])
  {
    UnescapeSnoc(token, c);
  }

  /** A backtick escaped in double quotes. */
  lemma AddTick(token: string, word: string)
    ensures Alike(token, word) ==> Alike(token + ['\\', '`'], word + ['`'])
    ensures Shorter(token, word) ==> Shorter(token + ['\\', '`'], word + ['`'])
  {
    UnescapeSnoc(token, '\\');
    UnescapeSnoc(token + ['\\'], '`');
    assert token + ['\\'] + ['`'] == token + ['\\', '`'];
    var u := ShlexUnescape(token);
    assert (u + ['\\'])[..|u + ['\\']| - 1] == u;
  }

  lemma AddBoth(token: string, word: string, c: char)
    requires c != '`'
    ensures Alike(token, word) ==> Alike(token + ['\\', c], word + ['\\', c])
    ensures Shorter(token, word) ==> Shorter(token + ['\\', c], word + ['\\', c])
  {
    AddLiteral(token, word, '\\');
    AddLiteral(token + ['\\'], word + ['\\'], c);
    assert token + ['\\'] + [c] == token + ['\\', c] && word + ['\\'] + [c] == word + ['\\', c];
  }

  /** From here to the end of the line: the client's words and a shell's. */
  ghost predicate Compared(x: Result<seq<string>>, y: Result<seq<string>>, alike: bool, misreads: bool) {
    && (x.Failure? ==> x == y) && (y.Failure? ==> x == y)
    && (x.Success? && y.Success? ==>
          if alike then UnescapeAll(x.value) == y.value <==> !misreads else UnescapeAll(x.value) != y.value)
  }

  lemma WordsCompared(token: string, word: string, quoted: bool, x: Result<seq<string>>, y: Result<seq<string>>,
                      misreads: bool)
    requires Alike(token, word) || Shorter(token, word)
    requires Compared(x, y, true, misreads)
    ensures Compared(Prepend(Emit(token, quoted), x), Prepend(Emit(word, quoted), y), Alike(token, word), misreads)
  {
    if x.Success? && y.Success? {
      var v, w := Emit(token, quoted) + x.value, Emit(word, quoted) + y.value;
      if Emit(token, quoted) == [] {
        assert v == x.value && w == y.value;
      } else {
        assert UnescapeAll(v) == [ShlexUnescape(token)] + UnescapeAll(x.value);
        assert w == [word] + y.value;
        SameTail(ShlexUnescape(token), word, UnescapeAll(x.value), y.value);
      }
    }
  }

  lemma SameTail(a: string, b: string, x: seq<string>, y: seq<string>)
    ensures [a] + x == [b] + y <==> a == b && x == y
  {
    if [a] + x == [b] + y {
      assert ([a] + x)[0] == a && ([b] + y)[0] == b && ([a] + x)[1..] == x && ([b] + y)[1..] == y;
    }
  }

  lemma LastWord(token: string, word: string, quoted: bool)
    requires Alike(token, word) || Shorter(token, word)
    ensures Compared(Success(Emit(token, quoted)), Success(Emit(word, quoted)), Alike(token, word), false)
  {
    WordsCompared(token, word, quoted, Success([]), Success([]), false);
    assert Emit(token, quoted) + [] == Emit(token, quoted) && Emit(word, quoted) + [] == Emit(word, quoted);
  }

  /** One more literal character, and then the rest of the line. */
  lemma LiteralStep(state: State, token: string, word: string, quoted: bool, after: bool, c: char, rest: string)
    requires !state.Blank? && (Alike(token, word) || Shorter(token, word)) && (after <==> EndsInBackslash(token))
    requires Compared(Lex(false, state, token + [c], quoted, rest), Lex(true, state, word + [c], quoted, rest),
                      Alike(token + [c], word + [c]), Misreads(state, c == '\\', rest))
    ensures Compared(Lex(false, state, token + [c], quoted, rest), Lex(true, state, word + [c], quoted, rest),
                     Alike(token, word), (after && c == '`') || Misreads(state, c == '\\', rest))
  {
    AddLiteral(token, word, c);
    hide Lex;
    hide Misreads;
  }

  lemma {:induction false} Readings(state: State, token: string, word: string, quoted: bool, after: bool, s: string)
    requires state.Blank? ==> token == "" && word == ""
    requires (Alike(token, word) || Shorter(token, word)) && (after <==> EndsInBackslash(token))
    ensures Compared(Lex(false, state, token, quoted, s), Lex(true, state, word, quoted, s), Alike(token, word),
                     Misreads(state, after, s))
    decreases s
  {
    match state
    case Blank => BlankReadings(s);
    case Word => WordReadings(token, word, quoted, after, s);
    case Quote(mark) => QuoteReadings(mark, token, word, quoted, after, s);
    case Escape(inQuotes) => EscapeReadings(inQuotes, token, word, quoted, after, s);
  }

  lemma NoWord()
    ensures Alike("", "") && !EndsInBackslash("")
  {
  }

  lemma OneLetter(c: char)
    ensures Alike([c], [c])
  {
    assert [c][1..] == "";
  }

  lemma {:induction false} BlankReadings(s: string)
    ensures Compared(Lex(false, Blank, "", false, s), Lex(true, Blank, "", false, s), true, Misreads(Blank, false, s))
    decreases s, 0
  {
    NoWord();
    if s != "" {
      var c, rest := s[0], s[1..];
      if Whitespace(c) {
        Readings(Blank, "", "", false, false, rest);
      } else if c == '\\' {
        Readings(Escape(false), "", "", false, false, rest);
      } else if Mark(c) {
        Readings(Quote(c), "", "", false, false, rest);
      } else {
        OneLetter(c);
        Readings(Word, [c], [c], false, false, rest);
      }
    }
  }

  lemma {:induction false} WordReadings(token: string, word: string, quoted: bool, after: bool, s: string)
    requires (Alike(token, word) || Shorter(token, word)) && (after <==> EndsInBackslash(token))
    ensures Compared(Lex(false, Word, token, quoted, s), Lex(true, Word, word, quoted, s), Alike(token, word),
                     Misreads(Word, after, s))
    decreases s, 0
  {
    if s == "" {
      LastWord(token, word, quoted);
    } else {
      var c, rest := s[0], s[1..];
      if Whitespace(c) {
        NoWord();
        Readings(Blank, "", "", false, false, rest);
        WordsCompared(token, word, quoted, Lex(false, Blank, "", false, rest), Lex(true, Blank, "", false, rest),
                      Misreads(Blank, false, rest));
      } else if Mark(c) {
        Readings(Quote(c), token, word, quoted, after, rest);
      } else if c == '\\' {
        Readings(Escape(false), token, word, quoted, after, rest);
      } else {
        AddLiteral(token, word, c);
        Readings(Word, token + [c], word + [c], quoted, false, rest);
        LiteralStep(Word, token, word, quoted, after, c, rest);
      }
    }
  }

  lemma {:induction false} QuoteReadings(mark: char, token: string, word: string, quoted: bool, after: bool, s: string)
    requires (Alike(token, word) || Shorter(token, word)) && (after <==> EndsInBackslash(token))
    ensures Compared(Lex(false, Quote(mark), token, quoted, s), Lex(true, Quote(mark), word, quoted, s),
                     Alike(token, word), Misreads(Quote(mark), after, s))
    decreases s, 0
  {
    if s != "" {
      var c, rest := s[0], s[1..];
      if c == mark {
        Readings(Word, token, word, true, after, rest);
      } else if c == '\\' && mark == '"' {
        Readings(Escape(true), token, word, true, after, rest);
      } else {
        AddLiteral(token, word, c);
        Readings(Quote(mark), token + [c], word + [c], true, c == '\\', rest);
        LiteralStep(Quote(mark), token, word, true, after, c, rest);
      }
    }
  }

  lemma {:induction false} EscapeReadings(inQuotes: bool, token: string, word: string, quoted: bool, after: bool,
                                          s: string)
    requires (Alike(token, word) || Shorter(token, word)) && (after <==> EndsInBackslash(token))
    ensures Compared(Lex(false, Escape(inQuotes), token, quoted, s), Lex(true, Escape(inQuotes), word, quoted, s),
                     Alike(token, word), Misreads(Escape(inQuotes), after, s))
    decreases s, 0
  {
    if s != "" {
      var c, rest := s[0], s[1..];
      var next := if inQuotes then Quote('"') else Word;
      if !inQuotes || c == '\\' || c == '"' {
        AddLiteral(token, word, c);
        Readings(next, token + [c], word + [c], quoted, c == '\\', rest);
        LiteralStep(next, token, word, quoted, after, c, rest);
      } else if c == '`' {
        AddTick(token, word);
        Readings(next, token + ['\\', '`'], word + ['`'], quoted, false, rest);
      } else {
        AddBoth(token, word, c);
        Readings(next, token + ['\\', c], word + ['\\', c], quoted, false, rest);
      }
    }
  }

  /** The client reads a line as a shell does if and only if the line cannot be read at all, or in no
      word a literal backslash stands right before a backtick that is not escaped in double quotes. */
  lemma ReadsAsShellIff(s: string)
    ensures ParseCommandLine(s) == ShellWords(s) <==> ShellWords(s).Failure? || !Misreads(Blank, false, s)
  {
    NoWord();
    Readings(Blank, "", "", false, false, s);
  }

  lemma SingleQuotedReadings()
    ensures Lex(false, Blank, "", false, "'\\`'") == Success(["\\`"]) == Lex(true, Blank, "", false, "'\\`'")
  {
    var line := "'\\`'";
    assert line[1..] == "\\`'" && "\\`'"[1..] == "`'" && "`'"[1..] == "'" && "'"[1..] == "";
    assert "" + ['\\'] == "\\" && "\\" + ['`'] == "\\`";
    forall ticks ensures Lex(ticks, Blank, "", false, line) == Success(["\\`"]) {
      assert Lex(ticks, Blank, "", false, line) == Lex(ticks, Quote('\''), "", false, "\\`'");
      assert Lex(ticks, Quote('\''), "", false, "\\`'") == Lex(ticks, Quote('\''), "\\", true, "`'");
      assert Lex(ticks, Quote('\''), "\\", true, "`'") == Lex(ticks, Quote('\''), "\\`", true, "'");
      assert Lex(ticks, Quote('\''), "\\`", true, "'") == Lex(ticks, Word, "\\`", true, "");
    }
  }

  lemma UnescapedTick()
    ensures ShlexUnescape("\\`") == "`" && UnescapeAll(["\\`"]) == ["`"]
  {
    assert "\\`"[1..] == "`" && "`"[1..] == "";
  }

  /** In single quotes a shell keeps the backslash and the client drops it. */
  lemma SingleQuotedBackslashIsLost()
    ensures ParseCommandLine("'\\`'") == Success(["`"]) && ShellWords("'\\`'") == Success(["\\`"])
  {
    SingleQuotedReadings();
    UnescapedTick();
  }

  lemma UnquotedReadings()
    ensures Lex(false, Blank, "", false, "\\\\\\`") == Success(["\\`"]) == Lex(true, Blank, "", false, "\\\\\\`")
  {
    var line := "\\\\\\`";
    assert line[1..] == "\\\\`" && "\\\\`"[1..] == "\\`" && "\\`"[1..] == "`" && "`"[1..] == "";
    assert "" + ['\\'] == "\\" && "\\" + ['`'] == "\\`";
    forall ticks ensures Lex(ticks, Blank, "", false, line) == Success(["\\`"]) {
      assert Lex(ticks, Blank, "", false, line) == Lex(ticks, Escape(false), "", false, "\\\\`");
      assert Lex(ticks, Escape(false), "", false, "\\\\`") == Lex(ticks, Word, "\\", false, "\\`");
      assert Lex(ticks, Word, "\\", false, "\\`") == Lex(ticks, Escape(false), "\\", false, "`");
      assert Lex(ticks, Escape(false), "\\", false, "`") == Lex(ticks, Word, "\\`", false, "");
    }
  }

  /** Nor are quotes needed: of three backslashes and a backtick the client leaves the backtick. */
  lemma UnquotedBackslashIsLost()
    ensures ParseCommandLine("\\\\\\`") == Success(["`"]) && ShellWords("\\\\\\`") == Success(["\\`"])
  {
    UnquotedReadings();
    UnescapedTick();
  }
}
