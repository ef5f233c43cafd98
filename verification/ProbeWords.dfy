/** What the lexer makes of single words and calls. Together these say, for any text a token can start
    with, which token it is or that there is none. */
module ProbeWords {
  import opened Bytes
  import opened Probe
  import opened ProbeLexer

  predicate BlankChar(c: char) {
    c in {' ', '\t', '\n', '\r'}
  }

  /** The token of a word that is not a call. */
  function Keyword(word: string): Option<seq<Token>> {
    if word == "TRUE" then Some([BoolTrue])
    else if word == "FALSE" then Some([BoolFalse])
    else if word == "AND" then Some([OpAnd])
    else if word == "OR" then Some([OpOr])
    else if word == "MATCH_ONE" then Some([MatchOne])
    else None
  }

  lemma OneToken(s: string, t: Token)
    requires s != [] && !IsSpace(s[0]) && First(s) == Some((t, |s|))
    ensures Lexed(s) == Some([t])
  {
    LexedFirst(s, t, |s|);
    assert s[|s|..] == [] && [t] + [] == [t];
  }

  /** A name of letters, digits, underscores and dots, with a group of arguments behind it, is one D-Bus
      statement. */
  lemma CallIsStatement(name: string, args: Piece)
    requires Word(name) && name != "FOUND" && Arguments(args)
    ensures Lexed(name + Text(args)) == Some([DbusProbe(name + Text(args))])
  {
    var s := name + Text(args);
    DbusToken(name, args, "");
    assert s + "" == s && s[0] == name[0];
    OneToken(s, DbusProbe(s));
  }

  /** The call of FOUND is a name without the blanks and single quotes around it. */
  lemma FoundIsName(args: Piece) returns (name: string)
    requires Arguments(args)
    ensures Lexed("FOUND" + Text(args)) == Some([Found(name)])
    ensures StrippedTo(TextAll(args.pieces), name)
  {
    var word: string, s := "FOUND", "FOUND" + Text(args);
    CallAt(word, args, "");
    assert word + Text(args) + "" == s;
    name := FoundName(Text(args));
    FoundNameStripped(Text(args));
    assert Text(args)[1..|Text(args)| - 1] == TextAll(args.pieces);
    assert s[5..] == Text(args) && s[5..|s|] == Text(args);
    assert s[0] == 'F';
    OneToken(s, Found(name));
  }

  /** A word by itself is a keyword or an error. */
  lemma WordAlone(word: string)
    requires Word(word)
    ensures Lexed(word) == Keyword(word)
  {
    NameRun(word, "");
    assert word + "" == word && word[..|word|] == word;
    if Keyword(word).Some? {
      OneToken(word, Keyword(word).value[0]);
    } else {
      LexedNone(word);
    }
  }

  /** A call is an error unless a group of arguments starts at its parenthesis. */
  lemma CallIsClosed(word: string, open: string) returns (args: Piece, rest: string)
    requires Word(word) && open != [] && open[0] == '(' && Lexed(word + open).Some?
    ensures Arguments(args) && open == Text(args) + rest
  {
    var s := word + open;
    NameRun(word, open);
    if BalancedLength(open, 0, None).None? {
      LexedNone(s);
    }
    args := BalancedIsGroup(open);
    rest := open[|Text(args)|..];
    assert Text(args)[0] == open[0];
  }

  /** Where a token should start, any other character is an error. */
  lemma StrangeCharacter(gap: string, c: char, rest: string)
    requires Blank(gap) && !WordChar(c) && !BlankChar(c)
    ensures Lexed(gap + ([c] + rest)).None?
  {
    LexedBlank(gap, [c] + rest);
    LexedNone([c] + rest);
  }

  /** Right behind a word, so is any other character but a blank or a parenthesis. */
  lemma StrangeBehindWord(word: string, c: char, rest: string)
    requires Word(word) && !WordChar(c) && !BlankChar(c) && c != '('
    ensures Lexed(word + ([c] + rest)).None?
  {
    var s := word + ([c] + rest);
    NameRun(word, [c] + rest);
    if KeywordType(word).None? {
      LexedNone(s);
    } else {
      LexedFirst(s, KeywordType(word).value, |word|);
      StrangeCharacter("", c, rest);
      assert "" + ([c] + rest) == [c] + rest;
    }
  }

  const WANTED := Quoted('\'', [Bare('P')])
  const VALUE := Quoted('\'', [Bare(')')])
  const PROPERTIES := Group('{', [WANTED, Plain(':'), VALUE], '}')

  lemma QuotedText(c: char)
    requires c != '\'' && c != '\\'
    ensures PieceOk(Quoted('\'', [Bare(c)])) && Text(Quoted('\'', [Bare(c)])) == ['\'', c, '\'']
  {
    assert [Bare(c)][1..] == [];
    assert LettersText([Bare(c)]) == [c];
  }

  lemma PropertiesText()
    ensures PieceOk(PROPERTIES) && Text(PROPERTIES) == "{'P':')'}"
  {
    QuotedText('P');
    QuotedText(')');
    var one, two := [VALUE], [Plain(':'), VALUE];
    assert [WANTED, Plain(':'), VALUE][1..] == two && two[1..] == one && one[1..] == [];
    assert TextAll(one) == "')'";
    assert TextAll(two) == ":')'";
  }

  /** The form the configurations' probes have. */
  lemma DottedExample()
    ensures Lexed("a.b_C1({'P':')'})") == Some([DbusProbe("a.b_C1({'P':')'})")])
  {
    var name: string, args := "a.b_C1", Group('(', [PROPERTIES], ')');
    PropertiesText();
    assert [PROPERTIES][1..] == [];
    assert TextAll([PROPERTIES]) == Text(PROPERTIES);
    ExampleText(Text(PROPERTIES));
    assert Text(args) == "(" + Text(PROPERTIES) + ")";
    CallIsStatement(name, args);
  }

  lemma ExampleText(properties: string)
    requires properties == "{'P':')'}"
    ensures "a.b_C1" + ("(" + properties + ")") == "a.b_C1({'P':')'})"
  {
  }
}
