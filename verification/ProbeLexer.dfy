/** Splitting a probe statement into tokens. */
module ProbeLexer {
  import opened Bytes
  import opened Probe

  predicate IsSpace(c: char) {
    c == ' ' || c == '\t' || c == '\n' || c == '\r'
  }

  predicate IsNameChar(c: char) {
    'A' <= c <= 'Z' || 'a' <= c <= 'z' || '0' <= c <= '9' || c == '_' || c == '.'
  }

  function KeywordType(word: string): Option<Token> {
    if word == "TRUE" then Some(BoolTrue)
    else if word == "FALSE" then Some(BoolFalse)
    else if word == "AND" then Some(OpAnd)
    else if word == "OR" then Some(OpOr)
    else if word == "MATCH_ONE" then Some(MatchOne)
    else None
  }

  predicate IsOpener(c: char) {
    c == '(' || c == '{'
  }

  predicate IsCloser(c: char) {
    c == ')' || c == '}'
  }

  predicate IsQuote(c: char) {
    c == '\'' || c == '"'
  }

  function Plus(n: nat, r: Option<nat>): Option<nat> {
    match r
    case None => None
    case Some(m) => Some(n + m)
  }

  /** How much of `s` there is up to the closer that brings `depth` to zero. Any closer ends any opener;
      inside quotes only the quote's own character counts, unless a backslash is in front of it. */
  function BalancedLength(s: string, depth: int, quote: Option<char>): (r: Option<nat>)
    ensures r.Some? ==> 0 < r.value <= |s|
  {
    if s == [] then None
    else if quote.Some? then
      if s[0] == '\\' && |s| > 1 then Plus(2, BalancedLength(s[2..], depth, quote))
      else Plus(1, BalancedLength(s[1..], depth, if s[0] == quote.value then None else quote))
    else if IsQuote(s[0]) then Plus(1, BalancedLength(s[1..], depth, Some(s[0])))
    else if IsOpener(s[0]) then Plus(1, BalancedLength(s[1..], depth + 1, None))
    else if IsCloser(s[0]) then (if depth == 1 then Some(1) else Plus(1, BalancedLength(s[1..], depth - 1, None)))
    else Plus(1, BalancedLength(s[1..], depth, None))
  }

  lemma Suffix(s: string, i: nat, j: nat)
    requires i + j <= |s|
    ensures s[i..][j..] == s[i + j..]
  {
  }

  lemma PlusPlus(a: nat, b: nat, r: Option<nat>)
    ensures Plus(a, Plus(b, r)) == Plus(a + b, r)
  {
  }

  /** One turn of the scan, at `s[i]`: where it goes on and how, or that the end is found. */
  method StepBalanced(s: string, i: nat, depth0: int, quote0: Option<char>)
    returns (next: nat, depth: int, quote: Option<char>, found: bool)
    requires i < |s|
    ensures i < next <= |s|
    ensures found ==> next == i + 1 && BalancedLength(s[i..], depth0, quote0) == Some(1)
    ensures !found ==> BalancedLength(s[i..], depth0, quote0) == Plus(next - i, BalancedLength(s[next..], depth, quote))
  {
    var c := s[i];
    Suffix(s, i, 1);
    next, depth, quote, found := i + 1, depth0, quote0, false;
    if quote.Some? {
      if c == '\\' && i + 1 < |s| {
        Suffix(s, i, 2);
        next := next + 1;
      } else if c == quote.value {
        quote := None;
      }
    } else if IsQuote(c) {
      quote := Some(c);
    } else if IsOpener(c) {
      depth := depth + 1;
    } else if IsCloser(c) {
      depth := depth - 1;
      found := depth == 0;
    }
  }

  method FindBalancedEnd(s: string, open: nat) returns (end: Option<nat>)
    requires open <= |s|
    ensures end == Plus(open, BalancedLength(s[open..], 0, None))
  {
    var depth, quote, i, found := 0, None, open, false;
    ghost var whole := BalancedLength(s[open..], 0, None);
    while i < |s|
      invariant open <= i <= |s|
      invariant whole == Plus(i - open, BalancedLength(s[i..], depth, quote))
    {
      ghost var at := i;
      i, depth, quote, found := StepBalanced(s, i, depth, quote);
      if found {
        return Some(i);
      }
      PlusPlus(at - open, i - at, BalancedLength(s[i..], depth, quote));
    }
    end := None;
  }

  predicate IsTrimmed(c: char) {
    c == ' ' || c == '\t' || c == '\''
  }

  function StripLeft(s: string): string {
    if s != [] && IsTrimmed(s[0]) then StripLeft(s[1..]) else s
  }

  function StripRight(s: string): string {
    if s != [] && IsTrimmed(s[|s| - 1]) then StripRight(s[..|s| - 1]) else s
  }

  /** The text between the parentheses of a FOUND, without blanks and single quotes at its ends. */
  function FoundName(args: string): string
    requires |args| >= 2
  {
    StripRight(StripLeft(args[1..|args| - 1]))
  }

  /** `name` is what is left of `s` when blanks and single quotes are taken off both ends. */
  ghost predicate StrippedTo(s: string, name: string) {
    && (name != [] ==> name[0] !in " \t'" && name[|name| - 1] !in " \t'")
    && exists left, right :: s == left + name + right && forall c :: c in left + right ==> c in " \t'"
  }

  lemma {:induction false} LeftStripped(s: string) returns (left: string)
    ensures s == left + StripLeft(s) && (forall c :: c in left ==> c in " \t'")
    ensures StripLeft(s) != [] ==> StripLeft(s)[0] !in " \t'"
  {
    left := [];
    if s != [] && IsTrimmed(s[0]) {
      left := LeftStripped(s[1..]);
      left := [s[0]] + left;
    }
  }

  lemma {:induction false} RightStripped(s: string) returns (right: string)
    ensures s == StripRight(s) + right && (forall c :: c in right ==> c in " \t'")
    ensures StripRight(s) != [] ==> StripRight(s)[|StripRight(s)| - 1] !in " \t'"
  {
    right := [];
    if s != [] && IsTrimmed(s[|s| - 1]) {
      right := RightStripped(s[..|s| - 1]);
      right := right + [s[|s| - 1]];
    }
  }

  lemma FoundNameStripped(args: string)
    requires |args| >= 2
    ensures StrippedTo(args[1..|args| - 1], FoundName(args))
  {
    var inner := args[1..|args| - 1];
    var left := LeftStripped(inner);
    var right := RightStripped(StripLeft(inner));
    var name := FoundName(args);
    assert inner == left + name + right;
    assert name != [] ==> name[0] == StripLeft(inner)[0];
  }

  method ExtractFoundName(args: string) returns (name: string)
    requires |args| >= 2
    ensures name == FoundName(args) && StrippedTo(args[1..|args| - 1], name)
  {
    var inner := args[1..|args| - 1];
    FoundNameStripped(args);
    var begin := 0;
    while begin < |inner| && IsTrimmed(inner[begin])
      invariant begin <= |inner| && StripLeft(inner) == StripLeft(inner[begin..])
    {
      Suffix(inner, begin, 1);
      begin := begin + 1;
    }
    var rest := inner[begin..];
    if begin == |inner| {
      return "";
    }
    var end := |rest|;
    assert rest[..end] == rest;
    while IsTrimmed(rest[end - 1])
      invariant 0 < end <= |rest| && !IsTrimmed(rest[0]) && StripRight(rest) == StripRight(rest[..end])
      decreases end
    {
      var front := rest[..end];
      assert front[end - 1] == rest[end - 1] && front[..end - 1] == rest[..end - 1];
      end := end - 1;
    }
    name := rest[..end];
    assert name[|name| - 1] == rest[end - 1];
  }

  function NameLength(s: string): (n: nat)
    ensures n <= |s| && (n < |s| ==> !IsNameChar(s[n]))
    ensures forall i :: 0 <= i < n ==> IsNameChar(s[i])
  {
    if s != [] && IsNameChar(s[0]) then 1 + NameLength(s[1..]) else 0
  }

  function Cons(t: Token, r: Option<seq<Token>>): Option<seq<Token>> {
    match r
    case None => None
    case Some(ts) => Some([t] + ts)
  }

  /** The token of a call: `n` characters of name, up to `end`. */
  function CallToken(s: string, n: nat, end: nat): Token
    requires n + 2 <= end <= |s|
  {
    if s[..n] == "FOUND" then Found(FoundName(s[n..end])) else DbusProbe(s[..end])
  }

  predicate IsCall(s: string, n: nat) {
    n < |s| && s[n] == '('
  }

  lemma CallIsLong(s: string)
    requires s != [] && s[0] == '('
    ensures var r := BalancedLength(s, 0, None); r.Some? ==> r.value >= 2
  {
  }

  /** The token at the front of `s`, and its length. */
  function First(s: string): (r: Option<(Token, nat)>)
    ensures r.Some? ==> 0 < r.value.1 <= |s|
  {
    var n := NameLength(s);
    if n == 0 then None
    else if IsCall(s, n) then
      match BalancedLength(s[n..], 0, None)
      case None => None
      case Some(m) =>
        CallIsLong(s[n..]);
        Some((CallToken(s, n, n + m), n + m))
    else
      match KeywordType(s[..n])
      case None => None
      case Some(t) => Some((t, n))
  }

  /** The tokens of a statement, None on a syntax error. */
  function Lexed(s: string): Option<seq<Token>> {
    if s == [] then Some([])
    else if IsSpace(s[0]) then Lexed(s[1..])
    else
      match First(s)
      case None => None
      case Some(first) => Cons(first.0, Lexed(s[first.1..]))
  }

  function After(tokens: seq<Token>, r: Option<seq<Token>>): Option<seq<Token>> {
    match r
    case None => None
    case Some(ts) => Some(tokens + ts)
  }

  lemma AfterCons(tokens: seq<Token>, t: Token, r: Option<seq<Token>>)
    ensures After(tokens, Cons(t, r)) == After(tokens + [t], r)
  {
    if r.Some? {
      assert tokens + ([t] + r.value) == (tokens + [t]) + r.value;
    }
  }

  method ReadName(probe: string, start: nat) returns (i: nat)
    requires start <= |probe|
    ensures i == start + NameLength(probe[start..])
  {
    i := start;
    while i < |probe| && IsNameChar(probe[i])
      invariant start <= i <= |probe| && NameLength(probe[start..]) == i - start + NameLength(probe[i..])
    {
      Suffix(probe, i, 1);
      i := i + 1;
    }
  }

  lemma LexedFirst(s: string, t: Token, end: nat)
    requires s != [] && !IsSpace(s[0]) && First(s) == Some((t, end))
    ensures 0 < end <= |s| && Lexed(s) == Cons(t, Lexed(s[end..]))
  {
  }

  lemma LexedNone(s: string)
    requires s != [] && !IsSpace(s[0]) && First(s).None?
    ensures Lexed(s).None?
  {
  }

  /** The token of the call that starts `s`: `open` characters of name, then a parenthesis. */
  method CallFirst(s: string, open: nat) returns (token: Option<Token>, end: nat)
    requires 0 < open == NameLength(s) && IsCall(s, open)
    ensures First(s) == if token.None? then None else Some((token.value, end))
  {
    var balanced := FindBalancedEnd(s, open);
    if balanced.None? {
      return None, 0;
    }
    CallIsLong(s[open..]);
    end := balanced.value;
    if s[..open] == "FOUND" {
      var name := ExtractFoundName(s[open..end]);
      token := Some(Found(name));
    } else {
      token := Some(DbusProbe(s[..end]));
    }
  }

  /** Reads one token off the front of `s`. */
  method NextToken(s: string) returns (token: Option<Token>, end: nat)
    requires s != [] && !IsSpace(s[0])
    ensures token.Some? ==> 0 < end <= |s| && Lexed(s) == Cons(token.value, Lexed(s[end..]))
    ensures token.None? ==> Lexed(s).None?
  {
    end := ReadName(s, 0);
    assert s[0..] == s;
    if end == 0 {
      token := None;
    } else if end < |s| && s[end] == '(' {
      token, end := CallFirst(s, end);
    } else {
      token := KeywordType(s[..end]);
    }
    if token.Some? {
      LexedFirst(s, token.value, end);
    } else {
      LexedNone(s);
    }
  }

  /** The first `i` characters have given `tokens`. */
  predicate Consumed(probe: string, tokens: seq<Token>, i: nat) {
    i <= |probe| && Lexed(probe) == After(tokens, Lexed(probe[i..]))
  }

  lemma ConsumedStart(probe: string)
    ensures Consumed(probe, [], 0)
  {
    assert probe[0..] == probe;
    assert Lexed(probe).Some? ==> [] + Lexed(probe).value == Lexed(probe).value;
  }

  lemma ConsumedEnd(probe: string, tokens: seq<Token>)
    requires Consumed(probe, tokens, |probe|)
    ensures Lexed(probe) == Some(tokens)
  {
    assert probe[|probe|..] == [] && tokens + [] == tokens;
  }

  lemma ConsumeSpace(probe: string, tokens: seq<Token>, i: nat)
    requires i < |probe| && Consumed(probe, tokens, i) && IsSpace(probe[i])
    ensures Consumed(probe, tokens, i + 1)
  {
    Suffix(probe, i, 1);
  }

  lemma ConsumeToken(probe: string, tokens: seq<Token>, i: nat, t: Token, end: nat)
    requires i < |probe| && Consumed(probe, tokens, i) && i + end <= |probe|
    requires Lexed(probe[i..]) == Cons(t, Lexed(probe[i..][end..]))
    ensures Consumed(probe, tokens + [t], i + end)
  {
    Suffix(probe, i, end);
    AfterCons(tokens, t, Lexed(probe[i + end..]));
  }

  method LexProbe(probe: string) returns (result: Option<seq<Token>>)
    ensures result == Lexed(probe)
  {
    var tokens := [];
    var i := 0;
    ConsumedStart(probe);
    while i < |probe|
      invariant Consumed(probe, tokens, i)
      decreases |probe| - i
    {
      if IsSpace(probe[i]) {
        ConsumeSpace(probe, tokens, i);
        i := i + 1;
        continue;
      }
      var token, end := NextToken(probe[i..]);
      if token.None? {
        return None;
      }
      ConsumeToken(probe, tokens, i, token.value, end);
      tokens := tokens + [token.value];
      i := i + end;
    }
    ConsumedEnd(probe, tokens);
    result := Some(tokens);
  }

  // ---- joining statements ----

  /** What stands behind a balanced end does not matter. */
  lemma {:induction false} BalancedPrefix(a: string, b: string, depth: int, quote: Option<char>)
    requires BalancedLength(a, depth, quote).Some?
    ensures BalancedLength(a + b, depth, quote) == BalancedLength(a, depth, quote)
    decreases |a|
  {
    assert (a + b)[1..] == a[1..] + b;
    if quote.Some? {
      if a[0] == '\\' && |a| > 1 {
        assert (a + b)[2..] == a[2..] + b;
        BalancedPrefix(a[2..], b, depth, quote);
      } else {
        BalancedPrefix(a[1..], b, depth, if a[0] == quote.value then None else quote);
      }
    } else if IsQuote(a[0]) {
      BalancedPrefix(a[1..], b, depth, Some(a[0]));
    } else if IsOpener(a[0]) {
      BalancedPrefix(a[1..], b, depth + 1, None);
    } else if IsCloser(a[0]) {
      if depth != 1 {
        BalancedPrefix(a[1..], b, depth - 1, None);
      }
    } else {
      BalancedPrefix(a[1..], b, depth, None);
    }
  }

  lemma {:induction false} NamePrefix(a: string, b: string)
    requires b != [] ==> !IsNameChar(b[0])
    ensures NameLength(a + b) == NameLength(a)
  {
    if a != [] {
      assert (a + b)[1..] == a[1..] + b;
      NamePrefix(a[1..], b);
    } else {
      assert a + b == b;
    }
  }

  /** What stands behind a token does not matter, if it does not go on with a name or a call. */
  lemma FirstPrefix(a: string, b: string)
    requires First(a).Some? && (b != [] ==> IsSpace(b[0]))
    ensures First(a + b) == First(a)
  {
    var n := NameLength(a);
    NamePrefix(a, b);
    if IsCall(a, n) {
      CallPrefix(a, b, n);
    } else {
      assert (a + b)[..n] == a[..n] && !IsCall(a + b, n);
    }
  }

  lemma CallPrefix(a: string, b: string, n: nat)
    requires 0 < n == NameLength(a) == NameLength(a + b) && IsCall(a, n) && First(a).Some?
    ensures First(a + b) == First(a)
  {
    var ab, m := a + b, BalancedLength(a[n..], 0, None).value;
    assert ab[n..] == a[n..] + b;
    BalancedPrefix(a[n..], b, 0, None);
    CallIsLong(a[n..]);
    SameCall(a, b, n, n + m);
  }

  lemma SameCall(a: string, b: string, n: nat, end: nat)
    requires n + 2 <= end <= |a|
    ensures CallToken(a + b, n, end) == CallToken(a, n, end)
  {
    var ab := a + b;
    assert ab[..n] == a[..n] && ab[n..end] == a[n..end] && ab[..end] == a[..end];
  }

  lemma LexedSpace(s: string)
    requires s != [] && IsSpace(s[0])
    ensures Lexed(s) == Lexed(s[1..])
  {
  }

  lemma ConsAfter(t: Token, tokens: seq<Token>, r: Option<seq<Token>>)
    ensures Cons(t, After(tokens, r)) == After([t] + tokens, r)
  {
    if r.Some? {
      assert [t] + (tokens + r.value) == ([t] + tokens) + r.value;
    }
  }

  /** A statement that lexes by itself keeps its tokens in front of any other: joining statements
      with a blank joins their tokens, and fails exactly when the second one does not lex. */
  lemma {:induction false} LexedConcat(a: string, b: string)
    requires Lexed(a).Some? && (b != [] ==> IsSpace(b[0]))
    ensures Lexed(a + b) == After(Lexed(a).value, Lexed(b))
    decreases |a|
  {
    if a == [] {
      assert a + b == b;
      assert Lexed(b).Some? ==> [] + Lexed(b).value == Lexed(b).value;
    } else if IsSpace(a[0]) {
      assert (a + b)[1..] == a[1..] + b;
      LexedSpace(a);
      LexedSpace(a + b);
      LexedConcat(a[1..], b);
    } else {
      var first := First(a).value;
      FirstPrefix(a, b);
      LexedFirst(a, first.0, first.1);
      LexedFirst(a + b, first.0, first.1);
      assert (a + b)[first.1..] == a[first.1..] + b;
      LexedConcat(a[first.1..], b);
      ConsAfter(first.0, Lexed(a[first.1..]).value, Lexed(b));
    }
  }

  function Join(statements: seq<string>): string {
    if statements == [] then ""
    else
      var front, last := Join(statements[..|statements| - 1]), statements[|statements| - 1];
      if front == "" then last else front + " " + last
  }

  /** The tokens of statements that each lex by themselves. */
  function AllTokens(statements: seq<string>): seq<Token>
    requires forall i :: 0 <= i < |statements| ==> Lexed(statements[i]).Some?
  {
    if statements == [] then []
    else AllTokens(statements[..|statements| - 1]) + Lexed(statements[|statements| - 1]).value
  }

  /** An array of statements may be joined with blanks before lexing. */
  lemma {:induction false} JoinedLexes(statements: seq<string>)
    requires forall i :: 0 <= i < |statements| ==> Lexed(statements[i]).Some?
    ensures Lexed(Join(statements)) == Some(AllTokens(statements))
  {
    if statements != [] {
      var init, last := statements[..|statements| - 1], statements[|statements| - 1];
      JoinedLexes(init);
      var blank := " " + last;
      assert blank[1..] == last;
      LexedSpace(blank);
      LexedConcat(Join(init), blank);
      assert Join(init) + blank == Join(init) + " " + last;
      if Join(init) == "" {
        assert AllTokens(init) == [];
        assert [] + Lexed(last).value == Lexed(last).value;
      }
    }
  }

  /** A probe field: an array of statements, each a string or not. */
  method ParseProbeCommand(probeField: seq<Option<string>>) returns (tokens: seq<Token>)
    ensures (exists i :: 0 <= i < |probeField| && probeField[i].None?) ==> tokens == []
    ensures (forall i :: 0 <= i < |probeField| ==> probeField[i].Some?) ==>
              var r := Lexed(Join(Strings(probeField))); tokens == if r.None? then [] else r.value
  {
    var joined := "";
    var i := 0;
    while i < |probeField|
      invariant i <= |probeField|
      invariant forall j :: 0 <= j < i ==> probeField[j].Some?
      invariant joined == Join(Strings(probeField[..i]))
    {
      if probeField[i].None? {
        return [];
      }
      assert probeField[..i + 1][..i] == probeField[..i];
      StringsLast(probeField, i);
      if joined != "" {
        joined := joined + " ";
      }
      joined := joined + probeField[i].value;
      i := i + 1;
    }
    assert probeField[..i] == probeField;
    var lexed := LexProbe(joined);
    tokens := if lexed.None? then [] else lexed.value;
  }

  function Strings(field: seq<Option<string>>): (r: seq<string>)
    requires forall i :: 0 <= i < |field| ==> field[i].Some?
    ensures |r| == |field| && forall i :: 0 <= i < |r| ==> r[i] == field[i].value
  {
    seq(|field|, i requires 0 <= i < |field| => field[i].value)
  }

  lemma StringsLast(field: seq<Option<string>>, i: nat)
    requires i < |field| && forall j :: 0 <= j <= i ==> field[j].Some?
    ensures Strings(field[..i + 1]) == Strings(field[..i]) + [field[i].value]
  {
  }

  // ---- printing ----

  function PrintFound(name: string): string {
    "FOUND" + "('" + name + "')"
  }

  function Print(t: Token): string {
    match t
    case BoolTrue => "TRUE"
    case BoolFalse => "FALSE"
    case OpAnd => "AND"
    case OpOr => "OR"
    case MatchOne => "MATCH_ONE"
    case Found(name) => PrintFound(name)
    case DbusProbe(statement) => statement
  }

  /** A name that can be written in quotes. */
  predicate Quotable(name: string) {
    && (forall i :: 0 <= i < |name| ==> name[i] != '\'' && name[i] != '\\')
    && (name != [] ==> name[0] !in " \t" && name[|name| - 1] !in " \t")
  }

  /** A keyword or the name of an interface. */
  predicate Word(s: string) {
    s != [] && forall i :: 0 <= i < |s| ==> WordChar(s[i])
  }

  predicate WordChar(c: char) {
    c in "._" || '0' <= c <= '9' || 'A' <= c <= 'Z' || 'a' <= c <= 'z'
  }

  /** A group in parentheses. */
  predicate Arguments(p: Piece) {
    p.Group? && p.open == '(' && PieceOk(p)
  }

  /** An interface's name with a group in parentheses behind it. */
  ghost predicate IsStatement(statement: string) {
    exists name, p :: Word(name) && name != "FOUND" && Arguments(p) && statement == name + Text(p)
  }

  ghost predicate Printable(t: Token) {
    && (t.Found? ==> Quotable(t.name))
    && (t.DbusProbe? ==> IsStatement(t.statement))
  }

  lemma {:induction false} NameRun(word: string, rest: string)
    requires forall i :: 0 <= i < |word| ==> IsNameChar(word[i])
    requires rest != [] ==> !IsNameChar(rest[0])
    ensures NameLength(word + rest) == |word| && (word + rest)[..|word|] == word && (word + rest)[|word|..] == rest
  {
    if word != [] {
      assert (word + rest)[1..] == word[1..] + rest;
      NameRun(word[1..], rest);
    } else {
      assert word + rest == rest;
    }
  }

  lemma NameOfFound(rest: string)
    requires rest != [] && !IsNameChar(rest[0])
    ensures NameLength("FOUND" + rest) == 5 && ("FOUND" + rest)[..5] == "FOUND" && ("FOUND" + rest)[5..] == rest
  {
    NameRun("FOUND", rest);
  }

  /** Inside single quotes everything up to the next one is skipped. */
  lemma {:induction false} QuotedSkip(name: string, rest: string, depth: int)
    requires forall i :: 0 <= i < |name| ==> name[i] != '\'' && name[i] != '\\'
    ensures BalancedLength(name + rest, depth, Some('\'')) == Plus(|name|, BalancedLength(rest, depth, Some('\'')))
  {
    if name == [] {
      assert name + rest == rest;
    } else {
      assert (name + rest)[1..] == name[1..] + rest;
      QuotedSkip(name[1..], rest, depth);
    }
  }

  lemma UnclosedQuote(s: string, depth: int)
    requires |s| >= 1 && s[0] == '\'' && forall i :: 1 <= i < |s| ==> s[i] != '\'' && s[i] != '\\'
    ensures BalancedLength(s, depth, None).None?
  {
    QuotedSkip(s[1..], "", depth);
    assert s[1..] + "" == s[1..];
  }

  lemma QuotedEnd(name: string, rest: string)
    requires Quotable(name)
    ensures BalancedLength("('" + name + "')" + rest, 0, None) == Some(|name| + 4)
  {
    var s := "('" + name + "')" + rest;
    assert s[1..][1..] == name + ("')" + rest);
    QuotedSkip(name, "')" + rest, 1);
    assert ("')" + rest)[1..] == ")" + rest;
  }

  lemma {:induction false} StripQuoted(name: string)
    requires Quotable(name)
    ensures FoundName("('" + name + "')") == name
  {
    var args := "('" + name + "')";
    var inner := "'" + name + "'";
    assert args[1..|args| - 1] == inner;
    assert inner[1..] == name + "'";
    if name == [] {
      var quote: string := ['\''];
      assert inner[1..] == quote && quote[1..] == [];
      assert StripLeft(quote) == StripLeft(quote[1..]);
    } else {
      var t := name + "'";
      assert inner[1..] == t && t[0] == name[0];
      assert StripLeft(inner) == StripLeft(t) == t;
      assert t[..|t| - 1] == name && t[|t| - 1] == '\'';
      assert StripRight(t) == StripRight(name) == name;
    }
  }

  lemma FoundToken(name: string, rest: string)
    requires Quotable(name)
    ensures First(PrintFound(name) + rest) == Some((Found(name), |PrintFound(name)|))
  {
    var s, args := PrintFound(name) + rest, "('" + name + "')";
    NameOfFound(args + rest);
    assert "FOUND" + (args + rest) == s;
    QuotedEnd(name, rest);
    assert s[5..] == args + rest;
    assert s[5..5 + |args|] == args;
    StripQuoted(name);
  }

  lemma CallAt(name: string, p: Piece, rest: string)
    requires Word(name) && Arguments(p)
    ensures var s := name + Text(p) + rest;
            && NameLength(s) == |name| && s[..|name|] == name && IsCall(s, |name|)
            && BalancedLength(s[|name|..], 0, None) == Some(|Text(p)|)
  {
    NameRun(name, Text(p) + rest);
    assert name + (Text(p) + rest) == name + Text(p) + rest;
    GroupEnd(p, rest);
  }

  /** A call's token ends where its arguments do, whatever comes behind it. */
  lemma DbusToken(name: string, p: Piece, rest: string)
    requires Word(name) && name != "FOUND" && Arguments(p)
    ensures First(name + Text(p) + rest) == Some((DbusProbe(name + Text(p)), |name + Text(p)|))
  {
    var s := name + Text(p) + rest;
    CallAt(name, p, rest);
    assert s[..|name + Text(p)|] == name + Text(p);
  }

  lemma StatementToken(statement: string, rest: string)
    requires IsStatement(statement)
    ensures First(statement + rest) == Some((DbusProbe(statement), |statement|))
    ensures statement != [] && !IsSpace(statement[0])
  {
    var name, p :| Word(name) && name != "FOUND" && Arguments(p) && statement == name + Text(p);
    DbusToken(name, p, rest);
    assert statement[0] == name[0];
  }

  lemma KeywordToken(t: Token, rest: string)
    requires !t.Found? && !t.DbusProbe? && (rest != [] ==> IsSpace(rest[0]))
    ensures First(Print(t) + rest) == Some((t, |Print(t)|))
  {
    NameRun(Print(t), rest);
  }

  lemma PrintedToken(t: Token, rest: string)
    requires Printable(t) && (rest != [] ==> IsSpace(rest[0]))
    ensures First(Print(t) + rest) == Some((t, |Print(t)|)) && Print(t) != [] && !IsSpace(Print(t)[0])
  {
    match t
    case Found(name) => FoundToken(name, rest);
    case DbusProbe(statement) => StatementToken(statement, rest);
    case _ => KeywordToken(t, rest);
  }

  predicate Blank(s: string) {
    forall i :: 0 <= i < |s| ==> s[i] in {' ', '\t', '\n', '\r'}
  }

  /** Tokens printed with blanks between them, `gaps[i]` in front of token `i`. */
  function PrintAll(tokens: seq<Token>, gaps: seq<string>): string
    requires |gaps| == |tokens| + 1
  {
    if tokens == [] then gaps[0] else gaps[0] + (Print(tokens[0]) + PrintAll(tokens[1..], gaps[1..]))
  }

  lemma {:induction false} LexedBlank(gap: string, rest: string)
    requires Blank(gap)
    ensures Lexed(gap + rest) == Lexed(rest)
  {
    if gap == [] {
      assert gap + rest == rest;
    } else {
      assert (gap + rest)[1..] == gap[1..] + rest;
      LexedSpace(gap + rest);
      LexedBlank(gap[1..], rest);
    }
  }

  lemma GapInFront(tokens: seq<Token>, gaps: seq<string>)
    requires |gaps| == |tokens| + 1 && Blank(gaps[0]) && (tokens != [] ==> gaps[0] != [])
    ensures var p := PrintAll(tokens, gaps); p != [] ==> IsSpace(p[0])
  {
  }

  lemma LexedStep(gap: string, t: Token, rest: string, more: seq<Token>)
    requires Blank(gap) && Printable(t) && (rest != [] ==> IsSpace(rest[0])) && Lexed(rest) == Some(more)
    ensures Lexed(gap + (Print(t) + rest)) == Some([t] + more)
  {
    var p, n := Print(t) + rest, |Print(t)|;
    LexedBlank(gap, p);
    PrintedToken(t, rest);
    assert p[0] == Print(t)[0] && p[n..] == rest;
    LexedFirst(p, t, n);
  }

  /** Printing tokens and lexing them gives the tokens back. */
  lemma {:induction false} LexedPrinted(tokens: seq<Token>, gaps: seq<string>)
    requires |gaps| == |tokens| + 1
    requires forall i :: 0 <= i < |tokens| ==> Printable(tokens[i])
    requires forall i :: 0 <= i < |gaps| ==> Blank(gaps[i])
    requires forall i :: 0 < i < |tokens| ==> gaps[i] != []
    ensures Lexed(PrintAll(tokens, gaps)) == Some(tokens)
    decreases |tokens|
  {
    if tokens == [] {
      LexedBlank(gaps[0], "");
      assert gaps[0] + "" == gaps[0];
    } else {
      GapInFront(tokens[1..], gaps[1..]);
      LexedPrinted(tokens[1..], gaps[1..]);
      LexedStep(gaps[0], tokens[0], PrintAll(tokens[1..], gaps[1..]), tokens[1..]);
      assert [tokens[0]] + tokens[1..] == tokens;
    }
  }

  /** Statements that do not lex by themselves may lex when joined: a quote opened in one of them can
      be closed in the next. */
  lemma JoiningRepairs(a: string, b: string)
    requires Quotable(a + " " + b)
    ensures Lexed("FOUND" + ("('" + a)).None?
    ensures Lexed(Join(["FOUND" + ("('" + a), b + "')"])) == Some([Found(a + " " + b)])
  {
    UnclosedFound(a, a + " " + b);
    JoinedFound(a, b);
    LexedFound(a + " " + b);
  }

  lemma JoinedFound(a: string, b: string)
    ensures Join(["FOUND" + ("('" + a), b + "')"]) == PrintFound(a + " " + b)
  {
    var first, second := "FOUND" + ("('" + a), b + "')";
    JoinTwo(first, second);
    assert first + " " + second == PrintFound(a + " " + b);
  }

  lemma OpenCall(args: string)
    requires args != [] && args[0] == '(' && BalancedLength(args, 0, None).None?
    ensures Lexed("FOUND" + args).None?
  {
    NameOfFound(args);
    var s := "FOUND" + args;
    assert IsCall(s, 5) && s[5..] == args;
    LexedNone(s);
  }

  lemma UnclosedFound(a: string, name: string)
    requires Quotable(name) && |a| <= |name| && name[..|a|] == a
    ensures Lexed("FOUND" + ("('" + a)).None?
  {
    var args, quoted := "('" + a, "'" + a;
    assert forall i :: 0 <= i < |a| ==> a[i] == name[i];
    assert args[1..] == quoted;
    UnclosedQuote(quoted, 1);
    OpenCall(args);
  }

  lemma JoinTwo(a: string, b: string)
    requires a != ""
    ensures Join([a, b]) == a + " " + b
  {
    var one, two := [a], [a, b];
    assert two[..|two| - 1] == one && one[..|one| - 1] == [];
    assert Join(one) == a;
  }

  lemma LexedFound(name: string)
    requires Quotable(name)
    ensures Lexed(PrintFound(name)) == Some([Found(name)])
  {
    LexedPrinted([Found(name)], ["", ""]);
    assert PrintAll([], ["", ""][1..]) == "";
    assert [Found(name)][1..] == [];
    assert "" + (PrintFound(name) + "") == PrintFound(name);
  }

  // ---- what balanced means ----

  /** Text between parentheses: plain characters, quoted text, and groups. */
  datatype Piece =
    | Plain(c: char)
    | Quoted(quote: char, body: seq<Letter>)
    | Group(open: char, pieces: seq<Piece>, close: char)

  datatype Letter = Bare(c: char) | Escaped(c: char)

  predicate PieceOk(p: Piece) {
    match p
    case Plain(c) => c !in {'\'', '"', '(', '{', ')', '}'}
    case Quoted(q, body) => q in {'\'', '"'} && forall i :: 0 <= i < |body| ==> LetterOk(q, body[i])
    case Group(o, pieces, c) =>
      o in {'(', '{'} && c in {')', '}'} && forall i :: 0 <= i < |pieces| ==> PieceOk(pieces[i])
  }

  function LettersText(body: seq<Letter>): string {
    if body == [] then ""
    else LetterText(body[0]) + LettersText(body[1..])
  }

  function Text(p: Piece): string {
    match p
    case Plain(c) => [c]
    case Quoted(q, body) => [q] + LettersText(body) + [q]
    case Group(o, pieces, c) => [o] + TextAll(pieces) + [c]
  }

  function TextAll(pieces: seq<Piece>): string {
    if pieces == [] then "" else Text(pieces[0]) + TextAll(pieces[1..])
  }

  function LetterText(l: Letter): string {
    match l
    case Bare(c) => [c]
    case Escaped(c) => ['\\', c]
  }

  predicate LetterOk(q: char, l: Letter) {
    l.Bare? ==> l.c != q && l.c != '\\'
  }

  lemma LetterSkip(q: char, l: Letter, rest: string, depth: int)
    requires IsQuote(q) && rest != [] && LetterOk(q, l)
    ensures BalancedLength(LetterText(l) + rest, depth, Some(q)) ==
            Plus(|LetterText(l)|, BalancedLength(rest, depth, Some(q)))
  {
    assert (LetterText(l) + rest)[|LetterText(l)|..] == rest;
  }

  lemma {:induction false} LettersSkip(q: char, body: seq<Letter>, rest: string, depth: int)
    requires IsQuote(q) && rest != [] && forall i :: 0 <= i < |body| ==> LetterOk(q, body[i])
    ensures BalancedLength(LettersText(body) + rest, depth, Some(q)) ==
            Plus(|LettersText(body)|, BalancedLength(rest, depth, Some(q)))
    decreases |body|
  {
    if body == [] {
      assert LettersText(body) + rest == rest;
    } else {
      var more := LettersText(body[1..]) + rest;
      assert LettersText(body) + rest == LetterText(body[0]) + more;
      LetterSkip(q, body[0], more, depth);
      LettersSkip(q, body[1..], rest, depth);
    }
  }

  lemma QuotedPieceSkip(q: char, body: seq<Letter>, rest: string, depth: int)
    requires PieceOk(Quoted(q, body))
    ensures BalancedLength([q] + LettersText(body) + [q] + rest, depth, None) ==
            Plus(|LettersText(body)| + 2, BalancedLength(rest, depth, None))
  {
    var s, t := [q] + LettersText(body) + [q] + rest, [q] + rest;
    assert s[1..] == LettersText(body) + t;
    LettersSkip(q, body, t, depth);
    assert t[1..] == rest;
  }

  /** Inside a group, a piece is passed over as a whole. */
  lemma {:induction false} PieceSkip(p: Piece, rest: string, depth: int)
    requires PieceOk(p) && depth >= 1
    ensures BalancedLength(Text(p) + rest, depth, None) == Plus(|Text(p)|, BalancedLength(rest, depth, None))
    decreases p, 1
  {
    var s := Text(p) + rest;
    match p
    case Plain(c) => assert s[1..] == rest;
    case Quoted(q, body) => QuotedPieceSkip(q, body, rest, depth);
    case Group(o, pieces, c) =>
      var t := [c] + rest;
      assert s[1..] == TextAll(pieces) + t;
      PiecesSkip(pieces, t, depth + 1);
      assert t[1..] == rest;
  }

  lemma {:induction false} PiecesSkip(pieces: seq<Piece>, rest: string, depth: int)
    requires depth >= 1 && forall i :: 0 <= i < |pieces| ==> PieceOk(pieces[i])
    ensures BalancedLength(TextAll(pieces) + rest, depth, None) ==
            Plus(|TextAll(pieces)|, BalancedLength(rest, depth, None))
    decreases pieces, 0
  {
    if pieces == [] {
      assert TextAll(pieces) + rest == rest;
    } else {
      var more := TextAll(pieces[1..]) + rest;
      assert TextAll(pieces) + rest == Text(pieces[0]) + more;
      PieceSkip(pieces[0], more, depth);
      PiecesSkip(pieces[1..], rest, depth);
    }
  }

  /** The balanced end of a group is the end of the group. */
  lemma GroupEnd(p: Piece, rest: string)
    requires p.Group? && PieceOk(p)
    ensures BalancedLength(Text(p) + rest, 0, None) == Some(|Text(p)|)
  {
    var s, t := Text(p) + rest, [p.close] + rest;
    assert s[1..] == TextAll(p.pieces) + t;
    PiecesSkip(p.pieces, t, 1);
  }

  lemma Split(s: string, i: nat, j: nat)
    requires i + j <= |s|
    ensures s[..i + j] == s[..i] + s[i..][..j] && s[i + j..] == s[i..][j..]
  {
  }

  lemma OneLetter(l: Letter, body: seq<Letter>)
    ensures LettersText([l] + body) == LetterText(l) + LettersText(body)
  {
    assert ([l] + body)[1..] == body;
  }

  /** `s` starts with the text of `body` and a closing quote, `k` characters in all. */
  predicate QuotedIs(s: string, q: char, body: seq<Letter>, k: nat) {
    && 0 < k <= |s| && s[..k] == LettersText(body) + [q]
    && forall i :: 0 <= i < |body| ==> LetterOk(q, body[i])
  }

  lemma QuotedMore(s: string, q: char, l: Letter, n: nat, body: seq<Letter>, k: nat)
    requires n <= |s| && QuotedIs(s[n..], q, body, k)
    requires s[..n] == LetterText(l) && LetterOk(q, l)
    ensures QuotedIs(s, q, [l] + body, n + k)
  {
    OneLetter(l, body);
    Split(s, n, k);
  }

  /** One letter in front of quoted text that goes on for `k` characters. */
  lemma QuotedStep(s: string, depth: int, q: char, l: Letter, body: seq<Letter>, k: nat)
    requires IsQuote(q) && BalancedLength(s, depth, Some(q)).Some? && LetterOk(q, l)
    requires |LetterText(l)| < |s| && s[..|LetterText(l)|] == LetterText(l)
    requires var rest := s[|LetterText(l)|..];
             QuotedIs(rest, q, body, k)
               && BalancedLength(rest, depth, Some(q)) == Plus(k, BalancedLength(rest[k..], depth, None))
    ensures var n := |LetterText(l)| + k;
            QuotedIs(s, q, [l] + body, n)
              && BalancedLength(s, depth, Some(q)) == Plus(n, BalancedLength(s[n..], depth, None))
  {
    var n := |LetterText(l)|;
    var rest := s[n..];
    assert s == LetterText(l) + rest;
    LetterSkip(q, l, rest, depth);
    QuotedMore(s, q, l, n, body, k);
    Suffix(s, n, k);
    PlusPlus(n, k, BalancedLength(rest[k..], depth, None));
  }

  /** Quoted text up to its closing quote. */
  lemma {:induction false} ReadQuoted(s: string, depth: int, q: char) returns (body: seq<Letter>, k: nat)
    requires IsQuote(q) && BalancedLength(s, depth, Some(q)).Some?
    ensures QuotedIs(s, q, body, k)
    ensures BalancedLength(s, depth, Some(q)) == Plus(k, BalancedLength(s[k..], depth, None))
    decreases |s|
  {
    if s[0] == q {
      body, k := [], 1;
    } else {
      var l := if s[0] == '\\' && |s| > 1 then Escaped(s[1]) else Bare(s[0]);
      var n := |LetterText(l)|;
      assert s[n..] != [] && s[..n] == LetterText(l);
      body, k := ReadQuoted(s[n..], depth, q);
      QuotedStep(s, depth, q, l, body, k);
      body, k := [l] + body, n + k;
    }
  }

  /** Pieces up to a closer, once for every open group. */
  datatype Level = Level(pieces: seq<Piece>, close: char)

  predicate LevelOk(l: Level) {
    IsCloser(l.close) && forall i :: 0 <= i < |l.pieces| ==> PieceOk(l.pieces[i])
  }

  function LevelsText(levels: seq<Level>): string {
    if levels == [] then "" else TextAll(levels[0].pieces) + [levels[0].close] + LevelsText(levels[1..])
  }

  /** `p` in front of the first level. */
  function Push(p: Piece, levels: seq<Level>): (r: seq<Level>)
    requires levels != []
    ensures |r| == |levels|
  {
    [Level([p] + levels[0].pieces, levels[0].close)] + levels[1..]
  }

  lemma PushText(p: Piece, levels: seq<Level>)
    requires levels != [] && PieceOk(p) && forall i :: 0 <= i < |levels| ==> LevelOk(levels[i])
    ensures LevelsText(Push(p, levels)) == Text(p) + LevelsText(levels)
    ensures forall i :: 0 <= i < |levels| ==> LevelOk(Push(p, levels)[i])
  {
    assert ([p] + levels[0].pieces)[1..] == levels[0].pieces;
    assert Push(p, levels)[1..] == levels[1..];
  }

  /** `s` starts with `levels`, in `m` characters. */
  predicate LevelsAre(s: string, levels: seq<Level>, m: nat) {
    && m <= |s| && s[..m] == LevelsText(levels)
    && forall i :: 0 <= i < |levels| ==> LevelOk(levels[i])
  }

  lemma LevelsMore(s: string, n: nat, p: Piece, levels: seq<Level>, m: nat)
    requires n <= |s| && levels != [] && PieceOk(p) && s[..n] == Text(p) && LevelsAre(s[n..], levels, m)
    ensures LevelsAre(s, Push(p, levels), n + m)
  {
    PushText(p, levels);
    Split(s, n, m);
  }

  lemma LevelsGroup(s: string, levels: seq<Level>, m: nat)
    requires |levels| >= 2 && s != [] && IsOpener(s[0]) && LevelsAre(s[1..], levels, m)
    ensures LevelsAre(s, Push(Group(s[0], levels[0].pieces, levels[0].close), levels[1..]), 1 + m)
  {
    var group := Group(s[0], levels[0].pieces, levels[0].close);
    assert LevelOk(levels[0]);
    PushText(group, levels[1..]);
    Split(s, 1, m);
  }

  lemma LevelsClosed(s: string, levels: seq<Level>, m: nat)
    requires s != [] && IsCloser(s[0]) && LevelsAre(s[1..], levels, m)
    ensures LevelsAre(s, [Level([], s[0])] + levels, 1 + m)
  {
    var all := [Level([], s[0])] + levels;
    assert all[1..] == levels;
    Split(s, 1, m);
  }

  lemma {:induction false} ReadLevels(s: string, depth: nat) returns (levels: seq<Level>)
    requires depth >= 1 && BalancedLength(s, depth, None).Some?
    ensures |levels| == depth && LevelsAre(s, levels, BalancedLength(s, depth, None).value)
    decreases |s|
  {
    var rest := s[1..];
    if IsQuote(s[0]) {
      var body, k := ReadQuoted(rest, depth, s[0]);
      var more := ReadLevels(rest[k..], depth);
      levels := Push(Quoted(s[0], body), more);
      Split(s, 1, k);
      LevelsMore(s, 1 + k, Quoted(s[0], body), more, BalancedLength(rest[k..], depth, None).value);
    } else if IsOpener(s[0]) {
      var more := ReadLevels(rest, depth + 1);
      levels := Push(Group(s[0], more[0].pieces, more[0].close), more[1..]);
      LevelsGroup(s, more, BalancedLength(rest, depth + 1, None).value);
    } else if IsCloser(s[0]) {
      var more, m := [], 0;
      if depth > 1 {
        more := ReadLevels(rest, depth - 1);
        m := BalancedLength(rest, depth - 1, None).value;
      }
      levels := [Level([], s[0])] + more;
      LevelsClosed(s, more, m);
    } else {
      var more := ReadLevels(rest, depth);
      levels := Push(Plain(s[0]), more);
      LevelsMore(s, 1, Plain(s[0]), more, BalancedLength(rest, depth, None).value);
    }
  }

  /** A balanced end is always the end of a group: together with `GroupEnd`, the scan of depth and
      quotes finds exactly the groups of the grammar. */
  lemma BalancedIsGroup(s: string) returns (p: Piece)
    requires s != [] && IsOpener(s[0]) && BalancedLength(s, 0, None).Some?
    ensures p.Group? && PieceOk(p) && Text(p) == s[..BalancedLength(s, 0, None).value]
  {
    var levels := ReadLevels(s[1..], 1);
    p := Group(s[0], levels[0].pieces, levels[0].close);
    var m := BalancedLength(s, 0, None).value;
    assert LevelsText(levels[1..]) == "";
    Split(s, 1, m - 1);
  }
}
