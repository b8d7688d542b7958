/** The cluster-wide custom rules: their syntax and their meaning. */
module CustomRules {
  import opened Wrappers
  import opened Strings
  import opened DomainSets

  /** A regular expression is kept as its pattern; what it matches is given from outside. */
  datatype Rule =
    | Exact(isAllow: bool, apex: string)
    | Regex(isAllow: bool, pattern: string)

  /** Which patterns compile, and which domains a pattern matches. */
  datatype Regexes = Regexes(compiles: string -> bool, matches: (string, string) -> bool)

  // ----------------------------------------------------------------------------
  // Parsing
  // ----------------------------------------------------------------------------

  predicate IsSpace(c: char) {
    c == ' ' || c == '\t' || c == '\n' || c == '\r' || c as int == 11 || c as int == 12
  }

  function TrimLeft(s: string): string {
    if s != [] && IsSpace(s[0]) then TrimLeft(s[1..]) else s
  }

  function TrimRight(s: string): string {
    if s != [] && IsSpace(s[|s| - 1]) then TrimRight(s[..|s| - 1]) else s
  }

  function TrimSpace(s: string): string {
    TrimRight(TrimLeft(s))
  }

  /** Only end-of-address bars are left. */
  predicate OnlyBars(s: string) {
    forall i :: 0 <= i < |s| ==> s[i] == '|'
  }

  predicate IsRegex(s: string) {
    |s| > 1 && s[0] == '/' && s[|s| - 1] == '/'
  }

  /** The part before the separator '^', which nothing but bars may follow. */
  function BeforeAnchor(s: string): Result<string> {
    var i := IndexOf(s, '^');
    if i < 0 then Ok(s)
    else if OnlyBars(s[i + 1..]) then Ok(s[..i])
    else Err("modifier is not supported")
  }

  function ParseDomain(isAllow: bool, s: string): Result<Rule> {
    match BeforeAnchor(TrimPrefix(s, "||"))
    case Err(e) => Err(e)
    case Ok(d) =>
      if '$' in d then Err("modifier is not supported")
      else if Normal(d) == "" then Err("empty domain after stripping wildcard prefix")
      else Ok(Exact(isAllow, Normal(d)))
  }

  function ParseRule(line: string, rx: Regexes): Result<Rule> {
    var isAllow := HasPrefix(line, "@@");
    var s := TrimPrefix(line, "@@");
    if IsRegex(s) then
      if rx.compiles(s[1..|s| - 1]) then Ok(Regex(isAllow, s[1..|s| - 1])) else Err("invalid regex")
    else ParseDomain(isAllow, s)
  }

  predicate IsComment(line: string) {
    line == "" || HasPrefix(line, "#") || HasPrefix(line, "!")
  }

  datatype Parse = Rules(rules: seq<Rule>) | BadLine(number: nat, error: string)

  /** What the first lines add to the rules before them: the first bad line ends it. */
  function ParsedLines(lines: seq<string>, rx: Regexes): Parse {
    if lines == [] then Rules([])
    else
      var n := |lines| - 1;
      var before, line := ParsedLines(lines[..n], rx), TrimSpace(lines[n]);
      if before.BadLine? || IsComment(line) then before
      else
        match ParseRule(line, rx)
        case Ok(rule) => Rules(before.rules + [rule])
        case Err(e) => BadLine(n + 1, e)
  }

  function Lines(text: string): (r: seq<string>)
    ensures |r| > 0
  {
    var i := IndexOf(text, '\n');
    if i < 0 then [text] else [text[..i]] + Lines(text[i + 1..])
  }

  method ParseCustomRules(text: string, rx: Regexes) returns (r: Parse)
    ensures r == ParsedLines(Lines(text), rx)
  {
    var lines := Lines(text);
    var rules: seq<Rule> := [];
    var i := 0;
    while i < |lines|
      invariant 0 <= i <= |lines|
      invariant ParsedLines(lines[..i], rx) == Rules(rules)
    {
      NextLine(lines, i, rx);
      var line := TrimSpace(lines[i]);
      i := i + 1;
      if IsComment(line) {
        continue;
      }
      var one := ParseRule(line, rx);
      if one.Err? {
        BadLineStays(lines, i, rx);
        return BadLine(i, one.error);
      }
      rules := rules + [one.value];
    }
    assert lines[..i] == lines;
    r := Rules(rules);
  }

  lemma NextLine(lines: seq<string>, i: nat, rx: Regexes)
    requires i < |lines| && ParsedLines(lines[..i], rx).Rules?
    ensures ParsedLines(lines[..i + 1], rx) ==
      if IsComment(TrimSpace(lines[i])) then ParsedLines(lines[..i], rx)
      else match ParseRule(TrimSpace(lines[i]), rx)
        case Ok(rule) => Rules(ParsedLines(lines[..i], rx).rules + [rule])
        case Err(e) => BadLine(i + 1, e)
  {
    assert lines[..i + 1][..i] == lines[..i];
  }

  lemma {:induction false} BadLineStays(lines: seq<string>, i: nat, rx: Regexes)
    requires i <= |lines| && ParsedLines(lines[..i], rx).BadLine?
    ensures ParsedLines(lines, rx) == ParsedLines(lines[..i], rx)
  {
    if i == |lines| {
      assert lines[..i] == lines;
    } else {
      assert lines[..|lines| - 1][..i] == lines[..i];
      BadLineStays(lines[..|lines| - 1], i, rx);
    }
  }

  /** The line is blank, a comment, or a rule. */
  predicate Valid(line: string, rx: Regexes) {
    IsComment(TrimSpace(line)) || ParseRule(TrimSpace(line), rx).Ok?
  }

  /** A text is accepted exactly when every line is; else the first bad line is reported. */
  lemma {:induction false} AcceptedIffEveryLineValid(lines: seq<string>, rx: Regexes)
    ensures ParsedLines(lines, rx).Rules? <==> FirstBad(lines, rx) == |lines|
    ensures ParsedLines(lines, rx).BadLine? ==> ParsedLines(lines, rx).number == FirstBad(lines, rx) + 1
  {
    if lines != [] {
      AcceptedIffEveryLineValid(lines[..|lines| - 1], rx);
    }
  }

  /** The position of the first line that is not valid; the number of lines if all are. */
  function FirstBad(lines: seq<string>, rx: Regexes): (r: nat)
    ensures r <= |lines|
  {
    if lines == [] then 0
    else
      var n := |lines| - 1;
      var before := FirstBad(lines[..n], rx);
      if before == n && Valid(lines[n], rx) then n + 1 else before
  }

  lemma {:induction false} FirstBadIsFirst(lines: seq<string>, rx: Regexes)
    ensures forall i :: 0 <= i < FirstBad(lines, rx) ==> Valid(lines[i], rx)
    ensures FirstBad(lines, rx) < |lines| ==> !Valid(lines[FirstBad(lines, rx)], rx)
  {
    if lines != [] {
      FirstBadIsFirst(lines[..|lines| - 1], rx);
    }
  }

  /** The lines that hold a rule: not blank, and no comment. */
  predicate HoldsRule(line: string) {
    TrimSpace(line) != "" && TrimSpace(line)[0] != '#' && TrimSpace(line)[0] != '!'
  }

  function RuleLines(lines: seq<string>): nat {
    if lines == [] then 0 else RuleLines(lines[..|lines| - 1]) + if HoldsRule(lines[|lines| - 1]) then 1 else 0
  }

  lemma {:induction false} RuleLinesGrow(lines: seq<string>, k: nat)
    requires k < |lines| && HoldsRule(lines[k])
    ensures RuleLines(lines[..k]) < RuleLines(lines)
  {
    var n := |lines| - 1;
    if k < n {
      assert lines[..n][..k] == lines[..k];
      RuleLinesGrow(lines[..n], k);
    }
  }

  /** An accepted text has one rule for every line that holds one, in the order of the lines. */
  lemma {:induction false} RulesInOrder(lines: seq<string>, rx: Regexes)
    requires ParsedLines(lines, rx).Rules?
    ensures |ParsedLines(lines, rx).rules| == RuleLines(lines)
    ensures forall k :: 0 <= k < |lines| && HoldsRule(lines[k]) ==>
      RuleLines(lines[..k]) < RuleLines(lines)
      && ParseRule(TrimSpace(lines[k]), rx) == Ok(ParsedLines(lines, rx).rules[RuleLines(lines[..k])])
  {
    if lines != [] {
      var n := |lines| - 1;
      RulesInOrder(lines[..n], rx);
      forall k | 0 <= k < |lines| && HoldsRule(lines[k])
        ensures RuleLines(lines[..k]) < RuleLines(lines)
        ensures ParseRule(TrimSpace(lines[k]), rx) == Ok(ParsedLines(lines, rx).rules[RuleLines(lines[..k])])
      {
        RuleLinesGrow(lines, k);
        if k < n { assert lines[..n][..k] == lines[..k] && lines[..n][k] == lines[k]; }
      }
    }
  }

  lemma {:induction false} TrimmedLeft(s: string) returns (k: nat)
    ensures k <= |s| && TrimLeft(s) == s[k..] && (k < |s| ==> !IsSpace(s[k]))
    ensures forall i :: 0 <= i < k ==> IsSpace(s[i])
  {
    if s != [] && IsSpace(s[0]) {
      var j := TrimmedLeft(s[1..]);
      k := j + 1;
      assert s[1..][j..] == s[k..];
      assert forall i :: 0 < i < k ==> s[i] == s[1..][i - 1];
    } else {
      k := 0;
    }
  }

  lemma {:induction false} TrimmedRight(s: string) returns (k: nat)
    ensures k <= |s| && TrimRight(s) == s[..k] && (k > 0 ==> !IsSpace(s[k - 1]))
    ensures forall i :: k <= i < |s| ==> IsSpace(s[i])
  {
    if s != [] && IsSpace(s[|s| - 1]) {
      k := TrimmedRight(s[..|s| - 1]);
      assert s[..|s| - 1][..k] == s[..k];
    } else {
      k := |s|;
    }
  }

  /** Trimming takes off the white space at both ends, and nothing else. */
  lemma Trimmed(s: string) returns (i: nat, j: nat)
    ensures i <= j <= |s| && TrimSpace(s) == s[i..j]
    ensures forall k :: 0 <= k < |s| && (k < i || j <= k) ==> IsSpace(s[k])
    ensures i < j ==> !IsSpace(s[i]) && !IsSpace(s[j - 1])
  {
    i := TrimmedLeft(s);
    var n := TrimmedRight(s[i..]);
    j := i + n;
    assert s[i..][..n] == s[i..j];
    assert forall k :: j <= k < |s| ==> s[k] == s[i..][k - i];
  }

  /** The lines of a text are what lies between its line feeds: joined by them they are the text, and none holds one. */
  lemma {:induction false} LinesJoin(text: string)
    ensures Joined(Lines(text)) == text
    ensures forall i :: 0 <= i < |Lines(text)| ==> '\n' !in Lines(text)[i]
    decreases |text|
  {
    var i := IndexOf(text, '\n');
    if i >= 0 {
      LinesJoin(text[i + 1..]);
      assert text == text[..i] + ['\n'] + text[i + 1..];
    }
  }

  function Joined(lines: seq<string>): string {
    if lines == [] then "" else if |lines| == 1 then lines[0] else lines[0] + ['\n'] + Joined(lines[1..])
  }

  // ----------------------------------------------------------------------------
  // Meaning
  // ----------------------------------------------------------------------------

  predicate MatchesRule(r: Rule, rx: Regexes, domain: string) {
    match r
    case Exact(_, apex) => Under(domain, apex)
    case Regex(_, pattern) => rx.matches(pattern, domain)
  }

  predicate SomeRule(rules: seq<Rule>, rx: Regexes, isAllow: bool, domain: string) {
    exists i :: 0 <= i < |rules| && rules[i].isAllow == isAllow && MatchesRule(rules[i], rx, domain)
  }

  /** Allow rules are consulted first. */
  method Evaluate(rules: seq<Rule>, rx: Regexes, domain: string) returns (matched: bool, isAllow: bool)
    ensures matched && isAllow <==> SomeRule(rules, rx, true, domain)
    ensures matched && !isAllow <==> SomeRule(rules, rx, false, domain) && !SomeRule(rules, rx, true, domain)
  {
    var i := 0;
    while i < |rules|
      invariant 0 <= i <= |rules|
      invariant forall j :: 0 <= j < i ==> !(rules[j].isAllow && MatchesRule(rules[j], rx, domain))
    {
      if rules[i].isAllow && MatchesRule(rules[i], rx, domain) {
        return true, true;
      }
      i := i + 1;
    }
    i := 0;
    while i < |rules|
      invariant 0 <= i <= |rules|
      invariant forall j :: 0 <= j < i ==> !(!rules[j].isAllow && MatchesRule(rules[j], rx, domain))
    {
      if !rules[i].isAllow && MatchesRule(rules[i], rx, domain) {
        return true, false;
      }
      i := i + 1;
    }
    return false, false;
  }

  // ----------------------------------------------------------------------------
  // Spellings of a domain
  // ----------------------------------------------------------------------------

  /** A domain without any of the characters that mean something in a rule. */
  predicate Plain(d: string) {
    d != "" && forall c :: c in d ==> c !in {'^', '$', '|', '*', '@', '/'}
  }

  lemma PlainIsNormal(d: string)
    requires Plain(d)
    ensures Normal(d) == Lower(d) && Normal("*." + d) == Lower(d)
    ensures !IsRegex(d) && !HasPrefix(d, "@@") && !HasPrefix(d, "||") && !HasPrefix(d, "*.")
  {
    assert d[0] in d;
    assert ("*." + d)[2..] == d;
  }

  lemma BareRule(s: string, rx: Regexes)
    requires s != "" && s[0] != '@' && s[0] != '/'
    ensures ParseRule(s, rx) == ParseDomain(false, s)
  {
    assert !("@@" <= s) by { assert "@@"[0] == '@'; }
  }

  lemma AllowRule(s: string, rx: Regexes)
    requires s != "" && s[0] != '/'
    ensures ParseRule("@@" + s, rx) == ParseDomain(true, s)
  {
    assert ("@@" + s)[2..] == s;
  }

  /** However it is spelled, an exact rule has the apex that a domain set stores. */
  lemma SpellingsAgree(d: string, rx: Regexes)
    requires Plain(d)
    ensures ParseRule(d, rx) == ParseRule("*." + d, rx) == ParseRule("||" + d + "^", rx) == Ok(Exact(false, Lower(d)))
    ensures ParseRule("@@" + d, rx) == ParseRule("@@" + ("||" + d + "^"), rx) == Ok(Exact(true, Lower(d)))
  {
    assert d[0] in d;
    PlainDomain(false, d);
    PlainDomain(true, d);
    BareRule(d, rx);
    BareRule("*." + d, rx);
    BareRule("||" + d + "^", rx);
    AllowRule(d, rx);
    AllowRule("||" + d + "^", rx);
  }

  lemma PlainDomain(isAllow: bool, d: string)
    requires Plain(d)
    ensures ParseDomain(isAllow, d) == ParseDomain(isAllow, "*." + d) == ParseDomain(isAllow, "||" + d + "^") ==
      Ok(Exact(isAllow, Lower(d)))
  {
    PlainIsNormal(d);
    var w := "*." + d;
    assert w[0] == '*' && '^' !in w && '$' !in w;
    var a := d + "^";
    assert TrimPrefix("||" + d + "^", "||") == a;
    AnchorAtEnd(d);
  }

  lemma AnchorAtEnd(d: string)
    requires '^' !in d
    ensures BeforeAnchor(d + "^") == Ok(d)
  {
    var a := d + "^";
    assert a[|d|] == '^' && a[..|d|] == d;
    IndexOfFirst(a, '^', |d|);
  }

  /** An exact rule, however spelled, and a domain set with the same entry match the same domains. */
  lemma RuleAgreesWithDomainSet(d: string, spelled: string, rx: Regexes, r: Rule, domain: string)
    requires Plain(d) && spelled in {d, "*." + d, "||" + d + "^"} && ParseRule(spelled, rx) == Ok(r)
    ensures MatchesRule(r, rx, domain) <==> Covered({Normal(d)}, domain)
    ensures Normal("*." + d) == Normal(d)
  {
    SpellingsAgree(d, rx);
    PlainIsNormal(d);
    assert Lower(d) in {Lower(d)};
  }

  // ----------------------------------------------------------------------------
  // The rest of the syntax
  // ----------------------------------------------------------------------------

  /** White space, and nothing else, is taken off both ends of a line. */
  lemma WhiteSpace(c: char, s: string)
    ensures c in " \t\n\r" || c as int == 11 || c as int == 12 ==>
      TrimSpace([c] + s) == TrimSpace(s) && TrimRight(s + [c]) == TrimRight(s)
    ensures !(c in " \t\n\r" || c as int == 11 || c as int == 12) ==> TrimSpace([c]) == [c]
  {
    assert ([c] + s)[1..] == s && (s + [c])[..|s|] == s;
  }

  /** Whatever stands between two slashes is a pattern, even if it is empty. */
  lemma PatternRule(isAllow: bool, pattern: string, rx: Regexes)
    ensures ParseRule((if isAllow then "@@" else "") + ("/" + pattern + "/"), rx) ==
      if rx.compiles(pattern) then Ok(Regex(isAllow, pattern)) else Err("invalid regex")
  {
    var s := "/" + pattern + "/";
    assert s[1..|s| - 1] == pattern;
    if isAllow {
      assert ("@@" + s)[2..] == s;
    } else {
      assert "" + s == s && !("@@" <= s) by { assert "@@"[0] == '@'; }
    }
  }

  lemma AnchorThen(d: string, tail: string)
    requires '^' !in d
    ensures BeforeAnchor(d + "^" + tail) ==
      if forall c :: c in tail ==> c == '|' then Ok(d) else Err("modifier is not supported")
  {
    var a := d + "^" + tail;
    assert a[|d|] == '^' && a[..|d|] == d && a[|d| + 1..] == tail;
    IndexOfFirst(a, '^', |d|);
    if forall c :: c in tail ==> c == '|' { assert forall i :: 0 <= i < |tail| ==> tail[i] in tail; }
  }

  /** Nothing but bars may follow the anchor of a domain. */
  lemma AnchorEndsRule(d: string, tail: string, rx: Regexes)
    requires Plain(d)
    ensures ParseRule("||" + (d + "^" + tail), rx) ==
      if forall c :: c in tail ==> c == '|' then Ok(Exact(false, Lower(d))) else Err("modifier is not supported")
  {
    var a := d + "^" + tail;
    BareRule("||" + a, rx);
    assert TrimPrefix("||" + a, "||") == a;
    AnchorThen(d, tail);
    PlainIsNormal(d);
  }

  /** A rule of one kind matches when one of that kind is in the list and matches, wherever it stands. */
  lemma SomeRuleIff(rules: seq<Rule>, rx: Regexes, isAllow: bool, domain: string)
    ensures SomeRule(rules, rx, isAllow, domain) <==>
      exists r :: r in rules && r.isAllow == isAllow
        && match r case Exact(_, apex) => Under(domain, apex) case Regex(_, p) => rx.matches(p, domain)
  {
    if r :| r in rules && r.isAllow == isAllow && MatchesRule(r, rx, domain) {
      var i :| 0 <= i < |rules| && rules[i] == r;
    }
  }
}
