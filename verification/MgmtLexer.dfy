/**
 * The command language of lexer/mgmt_protocol.re: the rule list, and the longest-match
 * scanner that re2c makes of it.
 */
module MgmtLexer {
  import opened Common

  const CR: byte := 0x0D
  const LF: byte := 0x0A
  const SPACE: byte := 0x20

  /** The start conditions <pass> and <trns>. */
  datatype Condition = PASS | TRNS

  datatype Command =
    | InvalidCmd
    | Incomplete
    | Token
    | Stats
    | Capa
    | ListUsers
    | GetBuffsize
    | SetBuffsize
    | GetDissectorStatus
    | SetDissectorStatus
    | AddUser
    | Quit
    | InvalidArgs
  {
    /** The commands that need an accepted token. */
    predicate Privileged() {
      Stats? || ListUsers? || GetBuffsize? || SetBuffsize? || GetDissectorStatus? || SetDissectorStatus? || AddUser?
    }
  }

  /** The character codes of a keyword: printable, not blank and without capitals. */
  function Codes(s: string): (r: seq<byte>)
    requires forall i :: 0 <= i < |s| ==> 0x21 <= s[i] as int <= 0x7E && !(0x41 <= s[i] as int <= 0x5A)
    ensures |r| == |s| && KeywordCodes(r)
  {
    seq(|s|, i requires 0 <= i < |s| => s[i] as int)
  }

  predicate KeywordCodes(s: seq<byte>) {
    forall i :: 0 <= i < |s| ==> 0x21 <= s[i] <= 0x7E && !(0x41 <= s[i] <= 0x5A)
  }

  predicate Print(c: byte) { 0x20 <= c <= 0x7F }
  predicate ArgChar(c: byte) { 0x21 <= c <= 0x7F }
  predicate Digit(c: byte) { 0x30 <= c <= 0x39 }

  predicate AllPrint(s: seq<byte>) { forall i :: 0 <= i < |s| ==> Print(s[i]) }
  predicate AllSpaces(s: seq<byte>) { forall i :: 0 <= i < |s| ==> s[i] == SPACE }

  /** A keyword of the rules, in any mixture of cases, at the start of a line. */
  predicate StartsWith(line: seq<byte>, keyword: seq<byte>) {
    |keyword| <= |line| && forall i :: 0 <= i < |keyword| ==> Lower(line[i]) == keyword[i]
  }

  /** keyword [ ]* */
  predicate Bare(line: seq<byte>, keyword: seq<byte>) {
    StartsWith(line, keyword) && AllSpaces(line[|keyword|..])
  }

  /** keyword [ ]+ */
  predicate Spaced(line: seq<byte>, keyword: seq<byte>) {
    StartsWith(line, keyword) && |line| > |keyword| && AllSpaces(line[|keyword|..])
  }

  predicate OneOf(s: seq<byte>, digits: bool) {
    s != [] && forall i :: 0 <= i < |s| ==> if digits then Digit(s[i]) else ArgChar(s[i])
  }

  /** keyword [ ]+ argument [ ]* */
  predicate WithArgument(line: seq<byte>, keyword: seq<byte>, digits: bool) {
    StartsWith(line, keyword) &&
    exists i, j | |keyword| < i < j <= |line| ::
      AllSpaces(line[|keyword|..i]) && OneOf(line[i..j], digits) && AllSpaces(line[j..])
  }

  /** keyword [ ]+ ("on"|"off"), where the argument is matched in lower case only */
  predicate WithSwitch(line: seq<byte>, keyword: seq<byte>) {
    StartsWith(line, keyword) &&
    exists i | |keyword| < i <= |line| ::
      AllSpaces(line[|keyword|..i]) && (line[i..] == Codes("on") || line[i..] == Codes("off"))
  }

  /** keyword [ ]+ [^\r]* */
  predicate AnyArguments(line: seq<byte>, keyword: seq<byte>) {
    StartsWith(line, keyword) && |line| > |keyword| && line[|keyword|] == SPACE
  }

  const CMDS: seq<seq<byte>> :=
    [Codes("pass"), Codes("users"), Codes("list"), Codes("buffsize"), Codes("set-buffsize"),
     Codes("dissector-status"), Codes("set-dissector-status")]

  predicate CmdsLine(line: seq<byte>) {
    exists i | 0 <= i < |CMDS| :: AnyArguments(line, CMDS[i])
  }

  /** The rules that end in CR LF, by the command they answer, in the order of the file. */
  datatype Rule =
    | TokenRule | StatsRule | UsersRule | BuffsizeRule | SetBuffsizeRule | DissectorRule | SetDissectorRule
    | AddUserRule | QuitRule | CapaRule | ArgumentsRule | LineRule | EmptyRule

  const RULES: seq<Rule> :=
    [TokenRule, StatsRule, UsersRule, BuffsizeRule, SetBuffsizeRule, DissectorRule, SetDissectorRule,
     AddUserRule, QuitRule, CapaRule, ArgumentsRule, LineRule, EmptyRule]

  predicate Applies(rule: Rule, cond: Condition) {
    match rule
    case TokenRule => cond == PASS
    case QuitRule | CapaRule | ArgumentsRule | LineRule | EmptyRule => true
    case _ => cond == TRNS
  }

  function Answer(rule: Rule): (c: Command)
    ensures c != Incomplete
  {
    match rule
    case TokenRule => Token
    case StatsRule => Stats
    case UsersRule => ListUsers
    case BuffsizeRule => GetBuffsize
    case SetBuffsizeRule => SetBuffsize
    case DissectorRule => GetDissectorStatus
    case SetDissectorRule => SetDissectorStatus
    case AddUserRule => AddUser
    case QuitRule => Quit
    case CapaRule => Capa
    case ArgumentsRule => InvalidArgs
    case LineRule => InvalidCmd
    case EmptyRule => InvalidCmd
  }

  /** What a rule accepts before its CR LF. */
  predicate Body(rule: Rule, line: seq<byte>) {
    match rule
    case TokenRule => WithArgument(line, Codes("token"), false)
    case StatsRule => Bare(line, Codes("stats"))
    case UsersRule => Bare(line, Codes("users"))
    case BuffsizeRule => Bare(line, Codes("buffsize"))
    case SetBuffsizeRule => WithArgument(line, Codes("set-buffsize"), true)
    case DissectorRule => Spaced(line, Codes("dissector-status"))
    case SetDissectorRule => WithSwitch(line, Codes("set-dissector-status"))
    case AddUserRule => WithArgument(line, Codes("add-user"), false)
    case QuitRule => Bare(line, Codes("quit"))
    case CapaRule => Bare(line, Codes("capa"))
    case ArgumentsRule => CmdsLine(line)
    case LineRule => line != [] && AllPrint(line)
    case EmptyRule => line == []
  }

  /** No rule lets a CR into the line itself. */
  predicate Accepts(rule: Rule, w: seq<byte>) {
    |w| >= 2 && w[|w| - 2..] == [CR, LF] && CR !in w[..|w| - 2] && Body(rule, w[..|w| - 2])
  }

  // ---------------------------------------------------------------------------
  // The scanner
  // ---------------------------------------------------------------------------

  /** Whether more input could still complete a rule: where the generated automaton asks for more. */
  predicate Live(s: seq<byte>) {
    var line := if s != [] && s[|s| - 1] == CR then s[..|s| - 1] else s;
    CR !in line && (AllPrint(line) || CmdsLine(line))
  }

  function FirstRule(rules: seq<Rule>, cond: Condition, w: seq<byte>): (r: Option<Rule>)
    ensures r.Some? ==> r.value in rules && Applies(r.value, cond) && Accepts(r.value, w)
    ensures r.None? ==> forall rule :: rule in rules ==> !(Applies(rule, cond) && Accepts(rule, w))
  {
    if rules == [] then None
    else if Applies(rules[0], cond) && Accepts(rules[0], w) then Some(rules[0])
    else FirstRule(rules[1..], cond, w)
  }

  /** The longest prefix of at most n bytes that a rule accepts; 0 if there is none. */
  function LongestMatch(cond: Condition, s: seq<byte>, n: nat): (k: nat)
    requires n <= |s|
    ensures k <= n && (k > 0 ==> FirstRule(RULES, cond, s[..k]).Some?)
    ensures forall m :: k < m <= n ==> FirstRule(RULES, cond, s[..m]).None?
  {
    if n == 0 then 0
    else if FirstRule(RULES, cond, s[..n]).Some? then n
    else LongestMatch(cond, s, n - 1)
  }

  datatype Lexed = Lexed(command: Command, length: nat)

  /** One call of parseMgmtRequest on the unread input. */
  function Lex(cond: Condition, s: seq<byte>): (r: Lexed)
    ensures r.length <= |s|
    ensures r.command == Incomplete <==> Live(s)
    ensures r.command != Incomplete ==> r.length > 0
  {
    if Live(s) then Lexed(Incomplete, 0)
    else
      var k := LongestMatch(cond, s, |s|);
      if k == 0 then Lexed(InvalidCmd, 1) else Lexed(Answer(FirstRule(RULES, cond, s[..k]).value), k)
  }

  // ---------------------------------------------------------------------------
  // Properties
  // ---------------------------------------------------------------------------

  predicate AcceptedBySome(cond: Condition, w: seq<byte>) {
    exists rule :: Applies(rule, cond) && Accepts(rule, w)
  }

  lemma EveryRuleListed(rule: Rule)
    ensures rule in RULES
  {
    match rule
    case TokenRule => assert RULES[0] == rule;
    case StatsRule => assert RULES[1] == rule;
    case UsersRule => assert RULES[2] == rule;
    case BuffsizeRule => assert RULES[3] == rule;
    case SetBuffsizeRule => assert RULES[4] == rule;
    case DissectorRule => assert RULES[5] == rule;
    case SetDissectorRule => assert RULES[6] == rule;
    case AddUserRule => assert RULES[7] == rule;
    case QuitRule => assert RULES[8] == rule;
    case CapaRule => assert RULES[9] == rule;
    case ArgumentsRule => assert RULES[10] == rule;
    case LineRule => assert RULES[11] == rule;
    case EmptyRule => assert RULES[12] == rule;
  }

  lemma FirstRuleComplete(cond: Condition, w: seq<byte>)
    ensures FirstRule(RULES, cond, w).Some? <==> AcceptedBySome(cond, w)
  {
    forall rule | Applies(rule, cond) && Accepts(rule, w)
      ensures FirstRule(RULES, cond, w).Some?
    {
      EveryRuleListed(rule);
    }
  }

  /** No privileged command is recognised before the token, and the token only then. */
  lemma Gate(cond: Condition, s: seq<byte>)
    ensures Lex(cond, s).command.Privileged() ==> cond == TRNS
    ensures Lex(cond, s).command == Token ==> cond == PASS
  {
    hide Accepts, Live;
  }

  /** A line that begins with a keyword and goes on with printable characters is printable. */
  lemma KeywordPrints(line: seq<byte>, keyword: seq<byte>)
    requires KeywordCodes(keyword) && StartsWith(line, keyword) && AllPrint(line[|keyword|..])
    ensures AllPrint(line)
  {
    forall i | 0 <= i < |line|
      ensures Print(line[i])
    {
      if i < |keyword| {
        assert Lower(line[i]) == keyword[i];
      } else {
        assert line[i] == line[|keyword|..][i - |keyword|];
      }
    }
  }

  lemma ArgumentPrints(line: seq<byte>, keyword: seq<byte>, digits: bool)
    requires KeywordCodes(keyword) && WithArgument(line, keyword, digits)
    ensures AllPrint(line)
  {
    var i, j :| |keyword| < i < j <= |line|
                && AllSpaces(line[|keyword|..i]) && OneOf(line[i..j], digits) && AllSpaces(line[j..]);
    var n, rest := |keyword|, line[|keyword|..];
    forall k | 0 <= k < |rest|
      ensures Print(rest[k])
    {
      if n + k < i {
        assert rest[k] == line[n..i][k];
      } else if n + k < j {
        assert rest[k] == line[i..j][n + k - i];
      } else {
        assert rest[k] == line[j..][n + k - j];
      }
    }
    KeywordPrints(line, keyword);
  }

  lemma SwitchPrints(line: seq<byte>, keyword: seq<byte>)
    requires KeywordCodes(keyword) && WithSwitch(line, keyword)
    ensures AllPrint(line)
  {
    hide Codes;
    var i :| |keyword| < i <= |line|
             && AllSpaces(line[|keyword|..i]) && (line[i..] == Codes("on") || line[i..] == Codes("off"));
    var n, rest := |keyword|, line[|keyword|..];
    assert KeywordCodes(line[i..]);
    forall k | 0 <= k < |rest|
      ensures Print(rest[k])
    {
      if n + k < i {
        assert rest[k] == line[n..i][k];
      } else {
        assert rest[k] == line[i..][n + k - i];
      }
    }
    KeywordPrints(line, keyword);
  }

  /** Every rule accepts printable lines only, but for the one that takes any arguments. */
  lemma BodiesPrint(rule: Rule, line: seq<byte>)
    requires Body(rule, line)
    ensures AllPrint(line) || CmdsLine(line)
  {
    hide Codes, CmdsLine;
    match rule
    case TokenRule => ArgumentPrints(line, Codes("token"), false);
    case SetBuffsizeRule => ArgumentPrints(line, Codes("set-buffsize"), true);
    case AddUserRule => ArgumentPrints(line, Codes("add-user"), false);
    case SetDissectorRule => SwitchPrints(line, Codes("set-dissector-status"));
    case StatsRule => KeywordPrints(line, Codes("stats"));
    case UsersRule => KeywordPrints(line, Codes("users"));
    case BuffsizeRule => KeywordPrints(line, Codes("buffsize"));
    case DissectorRule => KeywordPrints(line, Codes("dissector-status"));
    case QuitRule => KeywordPrints(line, Codes("quit"));
    case CapaRule => KeywordPrints(line, Codes("capa"));
    case _ =>
  }

  lemma PrefixesPrint(line: seq<byte>, n: nat)
    requires n <= |line| && (AllPrint(line) || CmdsLine(line))
    ensures AllPrint(line[..n]) || CmdsLine(line[..n])
  {
    hide Codes;
    if !AllPrint(line) {
      var i :| 0 <= i < |CMDS| && AnyArguments(line, CMDS[i]);
      var keyword := CMDS[i];
      assert KeywordCodes(keyword);
      if n > |keyword| {
        assert AnyArguments(line[..n], CMDS[i]);
      } else {
        forall k | 0 <= k < n
          ensures Print(line[k])
        {
          assert Lower(line[k]) == keyword[k];
        }
      }
    }
  }

  /** Live is what it should be: some continuation completes a rule. */
  lemma LiveIsExtendable(cond: Condition, s: seq<byte>)
    ensures Live(s) <==> exists t :: t != [] && AcceptedBySome(cond, s + t)
  {
    hide CmdsLine, AllPrint;
    if Live(s) {
      LiveExtends(cond, s);
    }
    forall t | t != [] && AcceptedBySome(cond, s + t)
      ensures Live(s)
    {
      ExtendableLives(cond, s, t);
    }
  }

  lemma AcceptsLine(rule: Rule, line: seq<byte>)
    requires CR !in line && Body(rule, line)
    ensures Accepts(rule, line + [CR, LF])
  {
    hide Body;
    var w := line + [CR, LF];
    assert w[..|w| - 2] == line && w[|w| - 2..] == [CR, LF];
  }

  /** The rules that any condition has for a whole line. */
  lemma SomeBody(cond: Condition, line: seq<byte>) returns (rule: Rule)
    requires AllPrint(line) || CmdsLine(line)
    ensures Applies(rule, cond) && Body(rule, line)
  {
    hide CmdsLine, AllPrint;
    rule := if CmdsLine(line) then ArgumentsRule else if line == [] then EmptyRule else LineRule;
  }

  lemma LiveExtends(cond: Condition, s: seq<byte>)
    requires Live(s)
    ensures exists t :: t != [] && AcceptedBySome(cond, s + t)
  {
    hide CmdsLine, AllPrint, Body, Accepts, Applies;
    var cut := s != [] && s[|s| - 1] == CR;
    var line := if cut then s[..|s| - 1] else s;
    var t := if cut then [LF] else [CR, LF];
    var rule := SomeBody(cond, line);
    AcceptsLine(rule, line);
    assert s + t == line + [CR, LF];
    assert AcceptedBySome(cond, s + t);
  }

  /** What is dead stays dead. */
  lemma LiveIsPrefixClosed(cond: Condition, s: seq<byte>, t: seq<byte>)
    requires Live(s + t)
    ensures Live(s)
  {
    hide Live, AcceptedBySome;
    LiveExtends(cond, s + t);
    var u :| u != [] && AcceptedBySome(cond, s + t + u);
    assert s + t + u == s + (t + u);
    ExtendableLives(cond, s, t + u);
  }

  lemma ExtendableLives(cond: Condition, s: seq<byte>, t: seq<byte>)
    requires t != [] && AcceptedBySome(cond, s + t)
    ensures Live(s)
  {
    hide CmdsLine, AllPrint, Body;
    var w := s + t;
    var rule :| Applies(rule, cond) && Accepts(rule, w);
    var line := w[..|w| - 2];
    BodiesPrint(rule, line);
    if |s| <= |line| {
      assert s == line[..|s|];
      PrefixesPrint(line, |s|);
      assert s == [] || s[|s| - 1] in line;
      assert forall b :: b in s ==> b in line;
    } else {
      assert s == line + [w[|w| - 2]];
      assert w[|w| - 2..][0] == CR;
      assert s[..|s| - 1] == line;
    }
  }

  /** The longest accepted prefix wins, then the earliest rule; with none, one character is refused. */
  lemma LongestThenFirst(cond: Condition, s: seq<byte>)
    requires !Live(s)
    ensures var r := Lex(cond, s);
            && (forall m :: r.length < m <= |s| ==> !AcceptedBySome(cond, s[..m]))
            && (if AcceptedBySome(cond, s[..r.length])
                then r.command == Answer(FirstRule(RULES, cond, s[..r.length]).value)
                     && FirstRule(RULES, cond, s[..r.length]).Some?
                else r == Lexed(InvalidCmd, 1))
  {
    hide Live, Accepts, Applies;
    var k := LongestMatch(cond, s, |s|);
    forall m | 0 <= m <= |s|
      ensures FirstRule(RULES, cond, s[..m]).Some? <==> AcceptedBySome(cond, s[..m])
    {
      FirstRuleComplete(cond, s[..m]);
    }
  }

  /**
   * Once a verdict is given, no further input changes it: commands are recognised the
   * same however their bytes are cut.
   */
  lemma VerdictIsStable(cond: Condition, s: seq<byte>, t: seq<byte>)
    requires Lex(cond, s).command != Incomplete
    ensures Lex(cond, s + t) == Lex(cond, s)
  {
    hide Live, Accepts, Applies, FirstRule, AcceptedBySome;
    var w := s + t;
    LiveIsExtendable(cond, s);
    if Live(w) {
      LiveIsPrefixClosed(cond, s, t);
    }
    var k, n := LongestMatch(cond, s, |s|), LongestMatch(cond, w, |w|);
    forall m | |s| < m <= |w|
      ensures FirstRule(RULES, cond, w[..m]).None?
    {
      assert w[..m] == s + t[..m - |s|];
      FirstRuleComplete(cond, w[..m]);
    }
    assert forall m :: 0 <= m <= |s| ==> w[..m] == s[..m];
    assert n == k;
  }
}
