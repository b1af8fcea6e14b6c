/**
 * What each line of a management client means, in literal bytes and without the rule list:
 * the ten commands, the lines that get the answer for wrong arguments, and all others.
 */
module MgmtCommands {
  import opened Common
  import opened MgmtLexer

  // ---------------------------------------------------------------------------
  // The language
  // ---------------------------------------------------------------------------

  const TOKEN_WORD: seq<byte> := [0x74, 0x6F, 0x6B, 0x65, 0x6E]                        // token
  const STATS_WORD: seq<byte> := [0x73, 0x74, 0x61, 0x74, 0x73]                        // stats
  const USERS_WORD: seq<byte> := [0x75, 0x73, 0x65, 0x72, 0x73]                        // users
  const BUFFSIZE_WORD: seq<byte> := [0x62, 0x75, 0x66, 0x66, 0x73, 0x69, 0x7A, 0x65]   // buffsize
  const SET: seq<byte> := [0x73, 0x65, 0x74, 0x2D]                                     // set-
  const DISSECTOR_WORD: seq<byte> :=                                                   // dissector-status
    [0x64, 0x69, 0x73, 0x73, 0x65, 0x63, 0x74, 0x6F, 0x72, 0x2D, 0x73, 0x74, 0x61, 0x74, 0x75, 0x73]
  const ADD_USER_WORD: seq<byte> := [0x61, 0x64, 0x64, 0x2D, 0x75, 0x73, 0x65, 0x72]   // add-user
  const QUIT_WORD: seq<byte> := [0x71, 0x75, 0x69, 0x74]                               // quit
  const CAPA_WORD: seq<byte> := [0x63, 0x61, 0x70, 0x61]                               // capa
  const PASS_WORD: seq<byte> := [0x70, 0x61, 0x73, 0x73]                               // pass
  const LIST_WORD: seq<byte> := [0x6C, 0x69, 0x73, 0x74]                               // list

  /** A word at the start of a line, each letter in either case. */
  predicate Begins(line: seq<byte>, word: seq<byte>) {
    |word| <= |line| &&
    forall i :: 0 <= i < |word| ==>
      line[i] == word[i] || (0x61 <= word[i] <= 0x7A && line[i] == word[i] - 32)
  }

  predicate Blank(s: seq<byte>) {
    forall i :: 0 <= i < |s| ==> s[i] == 0x20
  }

  /** A word and any blanks. */
  predicate Alone(line: seq<byte>, word: seq<byte>) {
    Begins(line, word) && Blank(line[|word|..])
  }

  predicate Argument(s: seq<byte>, digits: bool) {
    s != [] && forall i :: 0 <= i < |s| ==> if digits then 0x30 <= s[i] <= 0x39 else 0x21 <= s[i] <= 0x7F
  }

  /** A word, blanks, an argument, and any blanks. */
  ghost predicate Argued(line: seq<byte>, word: seq<byte>, digits: bool) {
    Begins(line, word) &&
    exists gap, arg, tail ::
      line[|word|..] == gap + arg + tail && gap != [] && Blank(gap) && Argument(arg, digits) && Blank(tail)
  }

  /** A word, blanks, and "on" or "off" in lower case. */
  ghost predicate Switched(line: seq<byte>, word: seq<byte>) {
    Begins(line, word) &&
    exists gap ::
      && gap != [] && Blank(gap)
      && (line[|word|..] == gap + [0x6F, 0x6E] || line[|word|..] == gap + [0x6F, 0x66, 0x66])
  }

  /** The lines that are commands: the token before it was accepted, the others but two after. */
  ghost predicate Named(command: Command, cond: Condition, line: seq<byte>) {
    match command
    case Token => cond == PASS && Argued(line, TOKEN_WORD, false)
    case Stats => cond == TRNS && Alone(line, STATS_WORD)
    case ListUsers => cond == TRNS && Alone(line, USERS_WORD)
    case GetBuffsize => cond == TRNS && Alone(line, BUFFSIZE_WORD)
    case SetBuffsize => cond == TRNS && Argued(line, SET + BUFFSIZE_WORD, true)
    case GetDissectorStatus => cond == TRNS && Alone(line, DISSECTOR_WORD) && |line| > |DISSECTOR_WORD|
    case SetDissectorStatus => cond == TRNS && Switched(line, SET + DISSECTOR_WORD)
    case AddUser => cond == TRNS && Argued(line, ADD_USER_WORD, false)
    case Quit => Alone(line, QUIT_WORD)
    case Capa => Alone(line, CAPA_WORD)
    case _ => false
  }

  ghost predicate Known(cond: Condition, line: seq<byte>) {
    exists command :: Named(command, cond, line)
  }

  const ADDRESSED: seq<seq<byte>> :=
    [PASS_WORD, USERS_WORD, LIST_WORD, BUFFSIZE_WORD, SET + BUFFSIZE_WORD, DISSECTOR_WORD, SET + DISSECTOR_WORD]

  /** Seven words for which wrong arguments are told from an unknown command. */
  predicate Addressed(line: seq<byte>) {
    exists k | 0 <= k < |ADDRESSED| ::
      Begins(line, ADDRESSED[k]) && |line| > |ADDRESSED[k]| && line[|ADDRESSED[k]|] == 0x20
  }

  predicate Printable(line: seq<byte>) {
    forall i :: 0 <= i < |line| ==> 0x20 <= line[i] <= 0x7F
  }

  // ---------------------------------------------------------------------------
  // The rules in these terms
  // ---------------------------------------------------------------------------

  lemma Words()
    ensures Codes("token") == TOKEN_WORD && Codes("stats") == STATS_WORD && Codes("users") == USERS_WORD
    ensures Codes("buffsize") == BUFFSIZE_WORD && Codes("set-buffsize") == SET + BUFFSIZE_WORD
    ensures Codes("add-user") == ADD_USER_WORD && Codes("quit") == QUIT_WORD && Codes("capa") == CAPA_WORD
    ensures Codes("pass") == PASS_WORD && Codes("list") == LIST_WORD
    ensures Codes("on") == [0x6F, 0x6E] && Codes("off") == [0x6F, 0x66, 0x66]
  {
  }

  lemma LongWords()
    ensures Codes("dissector-status") == DISSECTOR_WORD
    ensures Codes("set-dissector-status") == SET + DISSECTOR_WORD
  {
  }

  lemma BeginsIs(line: seq<byte>, word: seq<byte>)
    requires KeywordCodes(word)
    ensures Begins(line, word) <==> StartsWith(line, word)
  {
    if |word| <= |line| {
      forall i | 0 <= i < |word|
        ensures Lower(line[i]) == word[i] <==>
                line[i] == word[i] || (0x61 <= word[i] <= 0x7A && line[i] == word[i] - 32)
      {
      }
    }
  }

  lemma AloneIs(line: seq<byte>, word: seq<byte>)
    requires KeywordCodes(word)
    ensures Alone(line, word) <==> Bare(line, word)
    ensures Alone(line, word) && |line| > |word| <==> Spaced(line, word)
  {
    BeginsIs(line, word);
  }

  lemma Pieces(line: seq<byte>, n: nat, a: seq<byte>, b: seq<byte>, c: seq<byte>)
    requires n <= |line| && line[n..] == a + b + c
    ensures n + |a| + |b| + |c| == |line|
    ensures line[n..n + |a|] == a && line[n + |a|..n + |a| + |b|] == b && line[n + |a| + |b|..] == c
  {
    assert line == line[..n] + (a + b + c);
  }

  lemma ArguedIs(line: seq<byte>, word: seq<byte>, digits: bool)
    requires KeywordCodes(word)
    ensures Argued(line, word, digits) <==> WithArgument(line, word, digits)
  {
    hide KeywordCodes, Begins, StartsWith;
    BeginsIs(line, word);
    if Argued(line, word, digits) { ArguedFits(line, word, digits); }
    if WithArgument(line, word, digits) { FitsArgued(line, word, digits); }
  }

  lemma ArguedFits(line: seq<byte>, word: seq<byte>, digits: bool)
    requires Argued(line, word, digits) && StartsWith(line, word)
    ensures WithArgument(line, word, digits)
  {
    hide KeywordCodes, Begins, StartsWith;
    var n := |word|;
    assert n <= |line| by { StartsInside(line, word); }
    var gap, arg, tail :|
      line[n..] == gap + arg + tail && gap != [] && Blank(gap) && Argument(arg, digits) && Blank(tail);
    Pieces(line, n, gap, arg, tail);
    assert AllSpaces(gap) && OneOf(arg, digits) && AllSpaces(tail);
  }

  lemma FitsArgued(line: seq<byte>, word: seq<byte>, digits: bool)
    requires WithArgument(line, word, digits) && Begins(line, word)
    ensures Argued(line, word, digits)
  {
    hide KeywordCodes, Begins, StartsWith;
    var n := |word|;
    var i, j :| n < i < j <= |line| && AllSpaces(line[n..i]) && OneOf(line[i..j], digits) && AllSpaces(line[j..]);
    var gap, arg, tail := line[n..i], line[i..j], line[j..];
    assert line[n..] == gap + arg + tail;
    assert Blank(gap) && Argument(arg, digits) && Blank(tail);
  }

  lemma StartsInside(line: seq<byte>, word: seq<byte>)
    requires StartsWith(line, word)
    ensures |word| <= |line|
  {
  }

  lemma SwitchedIs(line: seq<byte>, word: seq<byte>)
    requires KeywordCodes(word)
    ensures Switched(line, word) <==> WithSwitch(line, word)
  {
    hide KeywordCodes, Begins, StartsWith, Codes;
    BeginsIs(line, word);
    Words();
    if Switched(line, word) { SwitchedFits(line, word); }
    if WithSwitch(line, word) {
      var n := |word|;
      var i :| n < i <= |line| && AllSpaces(line[n..i]) && (line[i..] == Codes("on") || line[i..] == Codes("off"));
      var gap := line[n..i];
      assert line[n..] == gap + line[i..] && Blank(gap);
    }
  }

  lemma SwitchedFits(line: seq<byte>, word: seq<byte>)
    requires Switched(line, word) && StartsWith(line, word)
    ensures WithSwitch(line, word)
  {
    hide KeywordCodes, Begins, StartsWith, Codes;
    Words();
    var n := |word|;
    assert n <= |line| by { StartsInside(line, word); }
    var gap :| gap != [] && Blank(gap)
               && (line[n..] == gap + [0x6F, 0x6E] || line[n..] == gap + [0x6F, 0x66, 0x66]);
    var value := if line[n..] == gap + [0x6F, 0x6E] then [0x6F, 0x6E] else [0x6F, 0x66, 0x66];
    assert gap + value + [] == gap + value;
    Pieces(line, n, gap, value, []);
    assert line[n + |gap|..] == value && AllSpaces(gap);
  }

  /** The rule for a command, none for the two refusals. */
  function RuleFor(command: Command): Option<Rule> {
    match command
    case Token => Some(TokenRule)
    case Stats => Some(StatsRule)
    case ListUsers => Some(UsersRule)
    case GetBuffsize => Some(BuffsizeRule)
    case SetBuffsize => Some(SetBuffsizeRule)
    case GetDissectorStatus => Some(DissectorRule)
    case SetDissectorStatus => Some(SetDissectorRule)
    case AddUser => Some(AddUserRule)
    case Quit => Some(QuitRule)
    case Capa => Some(CapaRule)
    case _ => None
  }

  lemma NamedIs(command: Command, cond: Condition, line: seq<byte>)
    ensures Named(command, cond, line) <==>
            RuleFor(command).Some? && Applies(RuleFor(command).value, cond) && Body(RuleFor(command).value, line)
  {
    Words();
    LongWords();
    hide Codes, Begins, Alone, Argued, Switched, Bare, Spaced, WithArgument, WithSwitch, KeywordCodes;
    match command
    case Token => ArguedIs(line, Codes("token"), false);
    case Stats => AloneIs(line, Codes("stats"));
    case ListUsers => AloneIs(line, Codes("users"));
    case GetBuffsize => AloneIs(line, Codes("buffsize"));
    case SetBuffsize => ArguedIs(line, Codes("set-buffsize"), true);
    case GetDissectorStatus => AloneIs(line, Codes("dissector-status"));
    case SetDissectorStatus => SwitchedIs(line, Codes("set-dissector-status"));
    case AddUser => ArguedIs(line, Codes("add-user"), false);
    case Quit => AloneIs(line, Codes("quit"));
    case Capa => AloneIs(line, Codes("capa"));
    case _ =>
  }

  lemma AddressedIs(line: seq<byte>)
    ensures Addressed(line) <==> Body(ArgumentsRule, line)
  {
    Words();
    LongWords();
    hide Codes;
    assert CMDS == ADDRESSED;
    forall k | 0 <= k < |CMDS|
      ensures Begins(line, ADDRESSED[k]) <==> StartsWith(line, CMDS[k])
    {
      BeginsIs(line, CMDS[k]);
    }
  }

  // ---------------------------------------------------------------------------
  // One rule at most
  // ---------------------------------------------------------------------------

  /** The word that the lines of a command begin with. */
  function WordOf(command: Command): seq<byte> {
    match command
    case Token => TOKEN_WORD
    case Stats => STATS_WORD
    case ListUsers => USERS_WORD
    case GetBuffsize => BUFFSIZE_WORD
    case SetBuffsize => SET + BUFFSIZE_WORD
    case GetDissectorStatus => DISSECTOR_WORD
    case SetDissectorStatus => SET + DISSECTOR_WORD
    case AddUser => ADD_USER_WORD
    case Quit => QUIT_WORD
    case Capa => CAPA_WORD
    case _ => []
  }

  /** The first, second and fifth letters tell the words apart; in two of them there is no fifth. */
  lemma Letters(command: Command, line: seq<byte>)
    requires RuleFor(command).Some? && Begins(line, WordOf(command))
    ensures |line| >= 4
    ensures var a, b := Lower(line[0]), Lower(line[1]);
            match command
            case Token => a == 0x74
            case Stats => a == 0x73 && b == 0x74
            case ListUsers => a == 0x75
            case GetBuffsize => a == 0x62
            case SetBuffsize => a == 0x73 && b == 0x65 && |line| > 4 && Lower(line[4]) == 0x62
            case GetDissectorStatus => a == 0x64
            case SetDissectorStatus => a == 0x73 && b == 0x65 && |line| > 4 && Lower(line[4]) == 0x64
            case AddUser => a == 0x61
            case Quit => a == 0x71
            case Capa => a == 0x63
            case _ => true
  {
    var w := WordOf(command);
    assert Lower(line[0]) == w[0] && Lower(line[1]) == w[1];
    if |w| > 4 { assert Lower(line[4]) == w[4]; }
  }

  lemma OneName(c: Command, d: Command, cond: Condition, line: seq<byte>)
    requires Named(c, cond, line) && Named(d, cond, line)
    ensures c == d
  {
    hide Begins, Blank, Argument;
    Letters(c, line);
    Letters(d, line);
  }

  lemma {:induction false} FirstRuleAt(rules: seq<Rule>, cond: Condition, w: seq<byte>, k: nat)
    requires k < |rules| && Applies(rules[k], cond) && Accepts(rules[k], w)
    requires forall i :: 0 <= i < k ==> !(Applies(rules[i], cond) && Accepts(rules[i], w))
    ensures FirstRule(rules, cond, w) == Some(rules[k])
    decreases k
  {
    hide Applies, Accepts;
    if k > 0 {
      assert !(Applies(rules[0], cond) && Accepts(rules[0], w));
      FirstRuleAt(rules[1..], cond, w, k - 1);
    }
  }

  /** A line ended by CR LF is more than could go on. */
  lemma LineIsOver(line: seq<byte>)
    requires CR !in line
    ensures var w := line + [CR, LF];
            !Live(w) && w[..|w|] == w && w[..|w| - 2] == line && w[|w| - 2..] == [CR, LF]
  {
    hide AllPrint, CmdsLine;
    var w := line + [CR, LF];
    assert w[|w| - 1] == LF && w[|line|] == CR;
    assert w[..|w| - 2] == line && w[|w| - 2..] == [CR, LF];
  }

  /** A line that the k-th rule is the first to accept, whatever follows it. */
  lemma LexLine(cond: Condition, line: seq<byte>, k: nat, rest: seq<byte>)
    requires CR !in line && k < |RULES| && Applies(RULES[k], cond) && Body(RULES[k], line)
    requires forall i :: 0 <= i < k ==> !(Applies(RULES[i], cond) && Body(RULES[i], line))
    ensures Lex(cond, line + [CR, LF] + rest) == Lexed(Answer(RULES[k]), |line| + 2)
  {
    hide Body, Applies, Live;
    var w := line + [CR, LF];
    LineIsOver(line);
    FirstRuleAt(RULES, cond, w, k);
    VerdictIsStable(cond, w, rest);
  }

  /** A line that no rule accepts loses its first byte. */
  lemma LexNothing(cond: Condition, line: seq<byte>, rest: seq<byte>)
    requires CR !in line && forall rule :: !(Applies(rule, cond) && Body(rule, line))
    ensures Lex(cond, line + [CR, LF] + rest) == Lexed(InvalidCmd, 1)
  {
    hide Body, Applies, Live;
    var w := line + [CR, LF];
    LineIsOver(line);
    forall m | 0 < m <= |w|
      ensures FirstRule(RULES, cond, w[..m]).None?
    {
      NoPrefix(cond, line, m);
    }
    VerdictIsStable(cond, w, rest);
  }

  lemma NoPrefix(cond: Condition, line: seq<byte>, m: nat)
    requires CR !in line && m <= |line| + 2 && forall rule :: !(Applies(rule, cond) && Body(rule, line))
    ensures FirstRule(RULES, cond, (line + [CR, LF])[..m]).None?
  {
    hide Body, Applies, Accepts;
    var r := FirstRule(RULES, cond, (line + [CR, LF])[..m]);
    if r.Some? {
      AcceptedIsLine(r.value, line, m);
    }
  }

  /** What a rule accepts of a line and its end is the line itself. */
  lemma AcceptedIsLine(rule: Rule, line: seq<byte>, m: nat)
    requires CR !in line && m <= |line| + 2 && Accepts(rule, (line + [CR, LF])[..m])
    ensures Body(rule, line)
  {
    hide Body;
    var s := line + [CR, LF];
    var w := s[..m];
    assert w[m - 2] == w[m - 2..][0] == CR && w[m - 1] == w[m - 2..][1] == LF;
    assert s[m - 2] == CR;
    assert m - 2 == |line| ==> w[..m - 2] == line;
  }

  // ---------------------------------------------------------------------------
  // Every line
  // ---------------------------------------------------------------------------

  /** The rules for commands are those that tell a command apart. */
  lemma RuleNames(cond: Condition, line: seq<byte>, rule: Rule)
    requires Applies(rule, cond) && Body(rule, line) && rule !in {ArgumentsRule, LineRule, EmptyRule}
    ensures Named(Answer(rule), cond, line) && RuleFor(Answer(rule)) == Some(rule)
  {
    hide Body, Named;
    NamedIs(Answer(rule), cond, line);
  }

  lemma CommandLine(command: Command, cond: Condition, line: seq<byte>, rest: seq<byte>)
    requires CR !in line && Named(command, cond, line)
    ensures Lex(cond, line + [CR, LF] + rest) == Lexed(command, |line| + 2)
  {
    hide Body, Named, Applies, Lex;
    NamedIs(command, cond, line);
    var k := PlaceOf(command);
    forall i | 0 <= i < k
      ensures !(Applies(RULES[i], cond) && Body(RULES[i], line))
    {
      if Applies(RULES[i], cond) && Body(RULES[i], line) {
        RuleNames(cond, line, RULES[i]);
        OneName(command, Answer(RULES[i]), cond, line);
      }
    }
    LexLine(cond, line, k, rest);
  }

  lemma PlaceOf(command: Command) returns (k: nat)
    requires RuleFor(command).Some?
    ensures k < 10 && RULES[k] == RuleFor(command).value && Answer(RULES[k]) == command
    ensures forall i :: 0 <= i < k ==> RULES[i] != RULES[k] && RULES[i] !in {ArgumentsRule, LineRule, EmptyRule}
  {
    EveryRuleListed(RuleFor(command).value);
    k :| 0 <= k < |RULES| && RULES[k] == RuleFor(command).value;
  }

  /**
   * Every line that ends in CR LF, whatever follows: a command is recognised with the length
   * of its line; of the others, those that begin with one of seven words and a blank are
   * answered as wrong arguments, the printable ones as unknown commands, and the rest loses
   * its first byte.
   */
  lemma EveryLine(cond: Condition, line: seq<byte>, rest: seq<byte>)
    requires 0x0D !in line
    ensures var r := Lex(cond, line + [0x0D, 0x0A] + rest);
            && (forall command :: Named(command, cond, line) ==> r == Lexed(command, |line| + 2))
            && (!Known(cond, line) ==>
                  r == if Addressed(line) then Lexed(InvalidArgs, |line| + 2)
                       else Lexed(InvalidCmd, if Printable(line) then |line| + 2 else 1))
  {
    hide Named, Body, Lex, Addressed, Applies, Answer;
    forall command | Named(command, cond, line)
      ensures Lex(cond, line + [CR, LF] + rest) == Lexed(command, |line| + 2)
    {
      CommandLine(command, cond, line, rest);
    }
    if !Known(cond, line) {
      OtherLine(cond, line, rest);
    }
  }

  lemma OtherLine(cond: Condition, line: seq<byte>, rest: seq<byte>)
    requires CR !in line && !Known(cond, line)
    ensures Lex(cond, line + [CR, LF] + rest) ==
            if Addressed(line) then Lexed(InvalidArgs, |line| + 2)
            else Lexed(InvalidCmd, if Printable(line) then |line| + 2 else 1)
  {
    hide Lex, Addressed, Named, CmdsLine, Codes;
    AddressedIs(line);
    forall rule | Applies(rule, cond) && Body(rule, line)
      ensures rule in {ArgumentsRule, LineRule, EmptyRule}
    {
      if rule !in {ArgumentsRule, LineRule, EmptyRule} { RuleNames(cond, line, rule); }
    }
    assert Printable(line) <==> Body(LineRule, line) || Body(EmptyRule, line);
    hide Body;
    assert RULES[10] == ArgumentsRule && RULES[11] == LineRule && RULES[12] == EmptyRule;
    if Addressed(line) {
      LexLine(cond, line, 10, rest);
    } else if Body(LineRule, line) {
      LexLine(cond, line, 11, rest);
    } else if Body(EmptyRule, line) {
      LexLine(cond, line, 12, rest);
    } else {
      LexNothing(cond, line, rest);
    }
  }
}
