/** The parameters on the kernel command line. */
module Cmdline {
  import opened GoText
  import opened Wrappers

  datatype Params = Params(server: string, action: string, host: string, debug: bool)

  const NO_PARAMS: Params := Params("", "", "", false)

  function IsTrue(v: string): bool {
    v == "1" || ToLower(v) == "true"
  }

  /** Debugging is on for 1 and for true in any case, and off for everything else. */
  lemma IsTrueIff(v: string)
    ensures IsTrue(v) <==> v == "1" || Spells(v, "true")
  {
    ToLowerIff(v, "true");
  }

  function Assign(p: Params, token: string): Params {
    var (k, v) := Cut(token, '=');
    if k == "fog_server" then p.(server := v)
    else if k == "fog_action" then p.(action := v)
    else if k == "fog_host" then p.(host := v)
    else if k == "fog_debug" then p.(debug := IsTrue(v))
    else p
  }

  function AssignAll(p: Params, tokens: seq<string>): Params {
    if tokens == [] then p else Assign(AssignAll(p, tokens[..|tokens| - 1]), tokens[|tokens| - 1])
  }

  method ParseString(cmdline: string) returns (p: Params)
    ensures p == AssignAll(NO_PARAMS, Fields(cmdline))
  {
    p := NO_PARAMS;
    var tokens := Fields(cmdline);
    for i := 0 to |tokens|
      invariant p == AssignAll(NO_PARAMS, tokens[..i])
    {
      assert tokens[..i + 1][..i] == tokens[..i];
      var (k, v) := Cut(tokens[i], '=');
      match k {
        case "fog_server" => p := p.(server := v);
        case "fog_action" => p := p.(action := v);
        case "fog_host" => p := p.(host := v);
        case "fog_debug" => p := p.(debug := v == "1" || ToLower(v) == "true");
        case _ =>
      }
    }
    assert tokens[..|tokens|] == tokens;
  }

  // ---------------------------------------------------------------- what the result is

  /** The text after the first '=' of the last token with this key. */
  function LastValue(tokens: seq<string>, key: string): Option<string> {
    if tokens == [] then None
    else
      var (k, v) := Cut(tokens[|tokens| - 1], '=');
      if k == key then Some(v) else LastValue(tokens[..|tokens| - 1], key)
  }

  function ValueOr(v: Option<string>, default: string): string {
    match v
    case Some(x) => x
    case None => default
  }

  /** Each parameter is the last value given to its key; nothing else has any influence. */
  lemma {:induction false} LastAssignmentWins(tokens: seq<string>)
    ensures AssignAll(NO_PARAMS, tokens) == Params(
      ValueOr(LastValue(tokens, "fog_server"), ""),
      ValueOr(LastValue(tokens, "fog_action"), ""),
      ValueOr(LastValue(tokens, "fog_host"), ""),
      var v := ValueOr(LastValue(tokens, "fog_debug"), ""); v == "1" || Spells(v, "true"))
  {
    IsTrueIff(ValueOr(LastValue(tokens, "fog_debug"), ""));
    if tokens != [] {
      var init := tokens[..|tokens| - 1];
      IsTrueIff(ValueOr(LastValue(init, "fog_debug"), ""));
    }
    if tokens == [] {
      assert !IsTrue("") by {
        assert |ToLower("")| == 0;
      }
    } else {
      LastAssignmentWins(tokens[..|tokens| - 1]);
    }
  }

  // ---------------------------------------------------------------- layout

  /** Tokens separated by runs of white space, with any white space at both ends. */
  function Layout(first: string, tokens: seq<string>, gaps: seq<string>): string
    requires |gaps| == |tokens|
    decreases |tokens|
  {
    first + if tokens == [] then "" else tokens[0] + Layout(gaps[0], tokens[1..], gaps[1..])
  }

  predicate IsToken(t: string) {
    t != "" && SpaceFree(t)
  }

  /** Tokens are read back whatever white space lies between and around them. */
  lemma {:induction false} LayoutDoesNotMatter(first: string, tokens: seq<string>, gaps: seq<string>)
    requires |gaps| == |tokens| && AllSpace(first)
    requires forall i | 0 <= i < |tokens| :: IsToken(tokens[i])
    requires forall i | 0 <= i < |gaps| :: AllSpace(gaps[i]) && (i < |gaps| - 1 ==> gaps[i] != "")
    ensures Fields(Layout(first, tokens, gaps)) == tokens
    decreases |tokens|
  {
    if tokens == [] {
      FieldsSkipsSpace(first, "");
    } else {
      var rest := Layout(gaps[0], tokens[1..], gaps[1..]);
      LayoutDoesNotMatter(gaps[0], tokens[1..], gaps[1..]);
      FieldsSkipsSpace(first, tokens[0] + rest);
      FieldsCons(tokens[0], rest);
    }
  }

  function Token(key: string, value: string): string {
    key + ['='] + value
  }

  /** The tokens that set these parameters. */
  function TokensOf(p: Params): seq<string> {
    [Token("fog_server", p.server), Token("fog_action", p.action), Token("fog_host", p.host),
     Token("fog_debug", if p.debug then "1" else "0")]
  }

  lemma OneMoreToken(tokens: seq<string>, key: string, value: string)
    requires '=' !in key
    ensures Cut(Token(key, value), '=') == (key, value)
    ensures AssignAll(NO_PARAMS, tokens + [Token(key, value)])
      == Assign(AssignAll(NO_PARAMS, tokens), Token(key, value))
  {
    CutAt(key, '=', value);
    var more := tokens + [Token(key, value)];
    assert more[..|more| - 1] == tokens;
  }

  lemma TokensAssign(p: Params)
    ensures AssignAll(NO_PARAMS, TokensOf(p)) == p
  {
    var debug := if p.debug then "1" else "0";
    var t1 := [Token("fog_server", p.server)];
    var t2 := t1 + [Token("fog_action", p.action)];
    var t3 := t2 + [Token("fog_host", p.host)];
    assert [] + t1 == t1 && TokensOf(p) == t3 + [Token("fog_debug", debug)];
    OneMoreToken([], "fog_server", p.server);
    OneMoreToken(t1, "fog_action", p.action);
    OneMoreToken(t2, "fog_host", p.host);
    OneMoreToken(t3, "fog_debug", debug);
    assert ToLower("0")[0] == '0';
    assert IsTrue(debug) == p.debug;
  }

  lemma TokensAreTokens(p: Params)
    requires SpaceFree(p.server) && SpaceFree(p.action) && SpaceFree(p.host)
    ensures forall i | 0 <= i < 4 :: IsToken(TokensOf(p)[i])
  {
    assert SpaceFree("fog_server") && SpaceFree("fog_action") && SpaceFree("fog_host") && SpaceFree("fog_debug");
    TokenIsToken("fog_server", p.server);
    TokenIsToken("fog_action", p.action);
    TokenIsToken("fog_host", p.host);
    TokenIsToken("fog_debug", if p.debug then "1" else "0");
  }

  lemma TokenIsToken(key: string, value: string)
    requires SpaceFree(key) && SpaceFree(value)
    ensures IsToken(Token(key, value))
  {
    assert !IsSpace('=');
  }

  /** Parameters without white space survive being printed, in any layout, and parsed. */
  lemma PrintParseRoundTrip(p: Params, first: string, gaps: seq<string>)
    requires SpaceFree(p.server) && SpaceFree(p.action) && SpaceFree(p.host)
    requires AllSpace(first) && |gaps| == 4
    requires forall i | 0 <= i < 4 :: AllSpace(gaps[i]) && (i < 3 ==> gaps[i] != "")
    ensures AssignAll(NO_PARAMS, Fields(Layout(first, TokensOf(p), gaps))) == p
  {
    TokensAreTokens(p);
    LayoutDoesNotMatter(first, TokensOf(p), gaps);
    TokensAssign(p);
  }
}
