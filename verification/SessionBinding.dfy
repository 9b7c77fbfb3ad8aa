/** Which session a request is locked under, and which one it is authorised for
    (`_request_session`, `_translate_argv`, `_dispatch_once`). */
module SessionBinding {
  import opened Wrappers
  import opened Argv

  // ----- accept ----------------------------------------------------------

  const ACCEPT_OPTIONS := {"--consumer", "--consumer-kind"}

  /** Each of the names takes one value. */
  function OneValueEach(options: set<string>): Table {
    map name | name in options :: Exactly(1)
  }

  /** The positionals `_accept_positionals` keeps: dashed tokens are dropped, `--` included. */
  function AcceptScan(options: set<string>, tokens: seq<string>): seq<string>
    decreases |tokens|
  {
    if tokens == [] then []
    else if tokens[0] in options then AcceptScan(options, Skip(tokens, 2))
    else if Dashed(tokens[0]) then AcceptScan(options, tokens[1..])
    else [tokens[0]] + AcceptScan(options, tokens[1..])
  }

  method AcceptPositionals(argv: seq<string>, commandIndex: nat) returns (result: seq<string>)
    ensures result == AcceptScan(ACCEPT_OPTIONS, Skip(argv, commandIndex + 1))
  {
    result := AcceptLoop(ACCEPT_OPTIONS, Skip(argv, commandIndex + 1));
  }

  method AcceptLoop(options: set<string>, rest: seq<string>) returns (result: seq<string>)
    ensures result == AcceptScan(options, rest)
  {
    result := [];
    var skipValue := false;
    ghost var todo := AcceptScan(options, rest);
    for k := 0 to |rest|
      invariant result + todo == AcceptScan(options, rest)
      invariant todo == AcceptScan(options, Skip(rest, if skipValue then k + 1 else k))
    {
      var item := rest[k];
      assert rest[k..][1..] == rest[k + 1..];
      assert Skip(rest[k..], 2) == Skip(rest, k + 2);
      if skipValue {
        skipValue := false;
      } else if item in options {
        skipValue := true;
      } else if !Dashed(item) {
        result, todo := result + [item], todo[1..];
      }
    }
  }

  /** The tokens after the `--` that ends the scan, if one does. */
  function Literal(table: Table, tokens: seq<string>): seq<string>
    decreases |tokens|
  {
    if tokens == [] then []
    else if IsTerminator(tokens[0]) then tokens[1..]
    else if Dashed(tokens[0]) then Literal(table, Skip(tokens, OptionWidth(table, tokens)))
    else Literal(table, tokens[1..])
  }

  lemma {:induction false} AcceptScanKeepsUndashed(options: set<string>, tokens: seq<string>)
    requires forall name <- options :: IsOptionName(name)
    ensures |AcceptScan(options, tokens)| <= |tokens|
    ensures AcceptScan(options, tokens) == tokens <==> forall t <- tokens :: !Dashed(t)
    decreases |tokens|
  {
    if tokens != [] {
      assert tokens[0] in tokens && tokens == [tokens[0]] + tokens[1..];
      if tokens[0] in options {
        AcceptScanKeepsUndashed(options, Skip(tokens, 2));
      } else {
        AcceptScanKeepsUndashed(options, tokens[1..]);
      }
    }
  }

  lemma {:induction false} ValuesOfEnumerate(tokens: seq<string>, at: nat)
    ensures Values(Enumerate(tokens, at)) == tokens
  {
    if tokens != [] {
      ValuesOfEnumerate(tokens[1..], at + 1);
      assert Values(Enumerate(tokens, at)) == [tokens[0]] + Values(Enumerate(tokens[1..], at + 1));
    }
  }

  lemma ConsInjective(x: string, a: seq<string>, b: seq<string>)
    ensures [x] + a == [x] + b <==> a == b
  {
    assert ([x] + a)[1..] == a && ([x] + b)[1..] == b;
  }

  lemma ValuesOfCons(p: (nat, string), rest: seq<(nat, string)>)
    ensures Values([p] + rest) == [p.1] + Values(rest)
  {
  }

  /** Both scanners step over an option and the value it takes. */
  lemma AcceptScanSkipsOption(options: set<string>, tokens: seq<string>)
    requires forall name <- options :: IsOptionName(name)
    requires tokens != [] && Dashed(tokens[0])
    ensures AcceptScan(options, tokens)
         == AcceptScan(options, Skip(tokens, OptionWidth(OneValueEach(options), tokens)))
  {
    if tokens[0] in options {
      OptionNameWithoutEquals(tokens[0]);
    }
  }

  /** Both scanners read the same positionals. */
  predicate ScannersAgree(options: set<string>, tokens: seq<string>, at: nat) {
    Values(Scan(OneValueEach(options), tokens, at)) == AcceptScan(options, tokens)
  }

  lemma AgreeAtTerminator(options: set<string>, tokens: seq<string>, at: nat)
    requires forall name <- options :: IsOptionName(name)
    requires tokens != [] && IsTerminator(tokens[0])
    ensures ScannersAgree(options, tokens, at) <==> forall t <- tokens[1..] :: !Dashed(t)
  {
    ValuesOfEnumerate(tokens[1..], at + 1);
    AcceptScanKeepsUndashed(options, tokens[1..]);
  }

  lemma AgreeAtPositional(options: set<string>, tokens: seq<string>, at: nat)
    requires forall name <- options :: IsOptionName(name)
    requires tokens != [] && !Dashed(tokens[0])
    ensures ScannersAgree(options, tokens, at) <==> ScannersAgree(options, tokens[1..], at + 1)
  {
    var rest := Scan(OneValueEach(options), tokens[1..], at + 1);
    ValuesOfCons((at, tokens[0]), rest);
    ConsInjective(tokens[0], Values(rest), AcceptScan(options, tokens[1..]));
  }

  /** The two accept scanners agree exactly when no dashed token follows the `--` that ends the
      option part; without a `--` they always agree. */
  lemma {:induction false} AcceptScannersAgree(options: set<string>, tokens: seq<string>, at: nat)
    requires forall name <- options :: IsOptionName(name)
    ensures Values(Scan(OneValueEach(options), tokens, at)) == AcceptScan(options, tokens)
       <==> forall t <- Literal(OneValueEach(options), tokens) :: !Dashed(t)
    decreases |tokens|
  {
    if tokens == [] {
    } else if IsTerminator(tokens[0]) {
      AgreeAtTerminator(options, tokens, at);
    } else if Dashed(tokens[0]) {
      AcceptScanSkipsOption(options, tokens);
      var w := OptionWidth(OneValueEach(options), tokens);
      AcceptScannersAgree(options, Skip(tokens, w), at + w);
    } else {
      AgreeAtPositional(options, tokens, at);
      AcceptScannersAgree(options, tokens[1..], at + 1);
    }
  }

  /** After `--`, a dashed literal is a positional for one scanner and a flag for the other. */
  lemma AcceptScannersCanDiffer()
    ensures Values(Scan(OneValueEach(ACCEPT_OPTIONS), ["--", "-x"], 1))
         != AcceptScan(ACCEPT_OPTIONS, ["--", "-x"])
  {
    var tokens := ["--", "-x"];
    AgreeAtTerminator(ACCEPT_OPTIONS, tokens, 1);
    assert "-x" in tokens[1..] && Dashed("-x");
  }

  // ----- the session of a request ----------------------------------------

  /** The options of each command that take values: the number of values, or every undashed token. */
  function ValueOptions(command: string): Table {
    OneValueEach(ACCEPT_OPTIONS) + CommandOptions(command)
  }

  function CommandOptions(command: string): Table {
    match command
    case "campaign-state" =>
      map["--evidence-offset" := Exactly(1), "--evidence-limit" := Exactly(1)]
    case "updates" =>
      map["--since" := Exactly(1)]
    case "claims" =>
      map["--acquire" := Exactly(1), "--expected-store-generation" := Exactly(1),
           "--release" := Exactly(1), "--claim-id" := Exactly(1), "--repository" := Exactly(1),
           "--offset" := Exactly(1), "--limit" := Exactly(1), "--transfer-to" := Exactly(1),
           "--transfer-consumer" := Exactly(1), "--paths" := UntilDash, "--worktree" := Exactly(1),
           "--branch" := Exactly(1), "--basis" := Exactly(1), "--reason" := Exactly(1),
           "--ttl" := Exactly(1), "--explain" := Exactly(1)]
    case "claim-recover" =>
      map["--campaign-id" := Exactly(1), "--claim-id" := Exactly(1), "--repository" := Exactly(1),
           "--owner-session-id" := Exactly(1), "--expected-version" := Exactly(1),
           "--approval-reference" := Exactly(1), "--reason" := Exactly(1)]
    case "scope-grant" =>
      map["--campaign-id" := Exactly(1), "--repository" := Exactly(1),
           "--expected-authority-revision" := Exactly(1), "--approval-reference" := Exactly(1),
           "--checkout" := Exactly(1), "--workspace-checkout" := Exactly(1),
           "--owner-authorized-checkout-json" := Exactly(1)]
    case "projections" =>
      map["--interpret" := Exactly(1), "--repository" := Exactly(1), "--history-pages" := Exactly(1),
           "--evidence-offset" := Exactly(1), "--evidence-limit" := Exactly(1),
           "--session-event-before-sequence" := Exactly(1), "--session-event-limit" := Exactly(1),
           "--apply" := Exactly(1), "--watch" := Exactly(1), "--watch-iterations" := Exactly(1)]
    case "retire" =>
      map["--repository" := Exactly(1), "--branch" := Exactly(1), "--worktree" := Exactly(1),
           "--canonical" := Exactly(1), "--execution-root" := Exactly(1),
           "--sandbox-root" := Exactly(1), "--request-id" := Exactly(1)]
    case "resume" =>
      map["--workspace" := Exactly(1)]
    case "reconcile" =>
      map[]
    case "authority" =>
      map["--action" := Exactly(1), "--target" := Exactly(1)]
    case "invoke" =>
      map["--effect-repository" := Exactly(1), "--input-artifact" := Exactly(4),
           "--cwd" := Exactly(1), "--timeout" := Exactly(1), "--output-limit-bytes" := Exactly(1)]
    case "test" =>
      map["--checkout" := Exactly(1), "--format" := Exactly(1), "--execution" := Exactly(1),
           "--timeout" := Exactly(1), "--max-executions" := Exactly(1)]
    case "checkpoint" =>
      map["--progress" := Exactly(1), "--remaining" := UntilDash,
           "--campaign-base-checkpoint" := Exactly(1), "--campaign-evidence-json" := Exactly(1),
           "--campaign-evidence-delta-json" := Exactly(1), "--campaign-delivery-json" := Exactly(1)]
    case "handoff" =>
      map["--to" := Exactly(1), "--to-principal" := Exactly(1), "--notes" := UntilDash,
           "--blockers" := UntilDash, "--next" := UntilDash]
    case "complete" =>
      map["--outcome" := Exactly(1), "--summary" := Exactly(1)]
    case "store" =>
      map["--session" := Exactly(1)]
    case _ => map[]
  }

  predicate IsSessionChar(c: char) {
    'A' <= c <= 'Z' || 'a' <= c <= 'z' || '0' <= c <= '9' || c == '_' || c == '-'
  }

  /** `ses_` and between 1 and 120 name characters. */
  predicate IsSession(value: string) {
    && 5 <= |value| <= 124
    && value[0] == 's' && value[1] == 'e' && value[2] == 's' && value[3] == '_'
    && forall k :: 4 <= k < |value| ==> IsSessionChar(value[k])
  }

  function FirstSession(positionals: seq<(nat, string)>): (r: Option<(nat, string)>)
    ensures r.None? <==> forall p <- positionals :: !IsSession(p.1)
    ensures r.Some? ==> r.value in positionals && IsSession(r.value.1)
  {
    if positionals == [] then None
    else if IsSession(positionals[0].1) then Some(positionals[0])
    else FirstSession(positionals[1..])
  }

  /** A session name in code points: `ses_` and 1 to 120 ASCII letters, digits, `_` or `-`. */
  lemma SessionShape(value: string)
    ensures IsSession(value) <==>
              && |value| > 4 && value[..4] == "ses_" && |value[4..]| <= 120
              && forall c <- value[4..] ::
                   48 <= c as int <= 57 || 65 <= c as int <= 90 || 97 <= c as int <= 122
                   || c as int == 95 || c as int == 45
  {
    if |value| > 4 {
      assert value[..4] == "ses_" <==> value[0] == 's' && value[1] == 'e' && value[2] == 's' && value[3] == '_';
      forall k | 4 <= k < |value|
        ensures value[k] in value[4..]
        ensures IsSessionChar(value[k]) <==> var c := value[k] as int;
                48 <= c <= 57 || 65 <= c <= 90 || 97 <= c <= 122 || c == 95 || c == 45
      {
        assert value[4..][k - 4] == value[k];
      }
      forall c <- value[4..] ensures exists k :: 4 <= k < |value| && value[k] == c {
        var i :| 0 <= i < |value[4..]| && value[4..][i] == c;
        assert value[i + 4] == c;
      }
    }
  }

  /** Of several it is the first. */
  lemma {:induction false} FirstSessionIsFirst(positionals: seq<(nat, string)>) returns (k: nat)
    ensures k <= |positionals| && forall j :: 0 <= j < k ==> !IsSession(positionals[j].1)
    ensures FirstSession(positionals) == if k < |positionals| then Some(positionals[k]) else None
    ensures k < |positionals| ==> IsSession(positionals[k].1)
  {
    k := 0;
    if positionals != [] && !IsSession(positionals[0].1) {
      k := FirstSessionIsFirst(positionals[1..]);
      assert forall j :: 0 < j < |positionals| ==> positionals[j] == positionals[1..][j - 1];
      k := k + 1;
    }
  }

  function SessionArgument(table: Table, argv: seq<string>): Option<(nat, string)>
    requires argv != []
  {
    FirstSession(Scan(table, argv[1..], 1))
  }

  /** The scan for the first session-shaped positional, over the result of the scanner loop. */
  method FindSessionArgument(argv: seq<string>) returns (selected: Option<(nat, string)>)
    requires argv != []
    ensures selected == SessionArgument(ValueOptions(argv[0]), argv)
  {
    var positionals := CliPositionals(ValueOptions(argv[0]), argv, 0);
    for k := 0 to |positionals|
      invariant FirstSession(positionals) == FirstSession(positionals[k..])
    {
      assert positionals[k..][1..] == positionals[k + 1..];
      if IsSession(positionals[k].1) {
        return Some(positionals[k]);
      }
    }
    selected := None;
  }

  /** The token after the first occurrence of `option`. */
  function ValueAfter(argv: seq<string>, option: string): Option<string> {
    if argv == [] then None
    else if argv[0] == option then if |argv| > 1 then Some(argv[1]) else None
    else ValueAfter(argv[1..], option)
  }

  /** The option's first occurrence alone decides, and only if a token follows it. */
  lemma {:induction false} ValueAfterFirst(argv: seq<string>, option: string) returns (k: nat)
    ensures k <= |argv| && forall j :: 0 <= j < k ==> argv[j] != option
    ensures k < |argv| ==> argv[k] == option
    ensures ValueAfter(argv, option) == if k + 1 < |argv| then Some(argv[k + 1]) else None
  {
    k := 0;
    if argv != [] && argv[0] != option {
      k := ValueAfterFirst(argv[1..], option);
      assert forall j :: 0 < j < |argv| ==> argv[j] == argv[1..][j - 1];
      k := k + 1;
    }
  }

  const SESSION_COMMANDS := {
    "inspect", "context", "resume", "reconcile", "health", "capabilities", "continuation",
    "checkpoint", "handoff", "accept", "claims", "claim-recover", "invoke", "retire", "store",
    "scope-grant", "complete", "campaign-bind", "campaign-state", "projections", "updates",
    "artifact-read"
  }

  function SessionOf(selected: Option<(nat, string)>): Option<string> {
    if selected.Some? then Some(selected.value.1) else None
  }

  function AcceptSession(argv: seq<string>): Option<string> {
    var positionals := AcceptScan(ACCEPT_OPTIONS, Skip(argv, 1));
    if positionals == [] then None else Some(positionals[0])
  }

  /** The session whose lock `dispatch` takes, read from the caller's argv. */
  function RequestSession(argv: seq<string>, bound: Option<string>): Option<string> {
    if argv == [] || argv[0] !in SESSION_COMMANDS then None
    else if argv[0] == "accept" then AcceptSession(argv)
    else if argv[0] == "continuation" then bound
    else if argv[0] == "store" then ValueAfter(argv, "--session")
    else if argv[0] == "campaign-bind" then ValueAfter(argv, "--session-id")
    else SessionOf(SessionArgument(ValueOptions(argv[0]), argv))
  }

  const AUTHORIZED_COMMANDS := {
    "inspect", "context", "resume", "reconcile", "health", "capabilities", "checkpoint",
    "handoff", "accept", "claims", "claim-recover", "complete", "retire", "store",
    "scope-grant", "invoke", "artifact-read", "campaign-state"
  }

  /** The session `_dispatch_once` authorises, read from the translated argv. */
  function AuthorizedSession(argv: seq<string>): Option<string>
    requires argv != []
  {
    if argv[0] == "store" then ValueAfter(argv, "--session")
    else if argv[0] == "accept" then AcceptSession(argv)
    else SessionOf(SessionArgument(ValueOptions(argv[0]), argv))
  }

  // ----- translation -----------------------------------------------------

  /** Where a client path maps to; a path that escapes its grant maps nowhere. */
  type PathMap = string -> Option<string>

  /** A token that the path rewriting takes for `option`, wherever it stands. */
  predicate Resembles(token: string, option: string) {
    token == option || Assigns(token, option)
  }

  /** The token has the form `option=value`. */
  predicate Assigns(token: string, option: string) {
    |option| < |token| && token[|option|] == '=' && token[..|option|] == option
  }

  /** `_has_option`. */
  predicate HasOption(argv: seq<string>, option: string) {
    exists item <- argv :: Resembles(item, option)
  }

  /** The commands that must target the session this grant has selected. */
  predicate RequiresSelectedSession(argv: seq<string>) {
    if argv == [] then false
    else if argv[0] in {"resume", "reconcile", "checkpoint", "handoff", "complete", "scope-grant",
                        "invoke", "claim-recover"} then true
    else if argv[0] == "claims" then
      HasOption(argv, "--acquire") || HasOption(argv, "--release") || HasOption(argv, "--transfer-to")
    else if argv[0] == "retire" then
      (HasOption(argv, "--branch") || HasOption(argv, "--worktree")) && !HasOption(argv, "--dry-run")
    else false
  }

  /** No occurrence lacks its value and every value maps. */
  predicate MapAccepts(option: string, f: PathMap, tokens: seq<string>)
    decreases |tokens|
  {
    if tokens == [] then true
    else if tokens[0] == option then
      |tokens| > 1 && f(tokens[1]).Some? && MapAccepts(option, f, tokens[2..])
    else
      && (Assigns(tokens[0], option) ==> f(tokens[0][|option| + 1..]).Some?)
      && MapAccepts(option, f, tokens[1..])
  }

  /** `map_path_option`: every occurrence of the option has its value replaced. */
  function MapOption(option: string, f: PathMap, tokens: seq<string>): (r: seq<string>)
    requires MapAccepts(option, f, tokens)
    ensures |r| == |tokens|
    decreases |tokens|
  {
    if tokens == [] then []
    else if tokens[0] == option then
      [option, f(tokens[1]).value] + MapOption(option, f, tokens[2..])
    else if Assigns(tokens[0], option) then
      [option + "=" + f(tokens[0][|option| + 1..]).value] + MapOption(option, f, tokens[1..])
    else [tokens[0]] + MapOption(option, f, tokens[1..])
  }

  lemma MapTakesTwo(option: string, f: PathMap, todo: seq<string>)
    requires |todo| > 1 && todo[0] == option && f(todo[1]).Some?
    ensures MapAccepts(option, f, todo) <==> MapAccepts(option, f, todo[2..])
    ensures MapAccepts(option, f, todo) ==>
              MapOption(option, f, todo) == [option, f(todo[1]).value] + MapOption(option, f, todo[2..])
  {
  }

  /** How one token that is not the option itself is rewritten, if it can be. */
  function MapToken(option: string, f: PathMap, item: string): Option<string> {
    if !Assigns(item, option) then Some(item)
    else
      var value := f(item[|option| + 1..]);
      if value.Some? then Some(option + "=" + value.value) else None
  }

  lemma MapTakesOne(option: string, f: PathMap, todo: seq<string>)
    requires todo != [] && todo[0] != option
    ensures MapAccepts(option, f, todo) <==> MapToken(option, f, todo[0]).Some? && MapAccepts(option, f, todo[1..])
    ensures MapAccepts(option, f, todo) ==>
              MapOption(option, f, todo) == [MapToken(option, f, todo[0]).value] + MapOption(option, f, todo[1..])
  {
  }

  lemma ReplaceSecond(done: seq<string>, todo: seq<string>, value: string)
    requires |todo| > 1
    ensures (done + todo)[|done| + 1 := value] == (done + [todo[0], value]) + todo[2..]
  {
  }

  lemma ReplaceFirst(done: seq<string>, todo: seq<string>, value: string)
    requires todo != []
    ensures (done + todo)[|done| := value] == (done + [value]) + todo[1..]
  {
  }

  /** What is done and what is to be done make up the mapping of the whole. */
  predicate MapSplits(option: string, f: PathMap, argv: seq<string>, done: seq<string>, todo: seq<string>) {
    && (MapAccepts(option, f, argv) <==> MapAccepts(option, f, todo))
    && (MapAccepts(option, f, argv) ==> MapOption(option, f, argv) == done + MapOption(option, f, todo))
  }

  lemma SplitsAfterTwo(option: string, f: PathMap, argv: seq<string>, done: seq<string>, todo: seq<string>)
    requires MapSplits(option, f, argv, done, todo)
    requires |todo| > 1 && todo[0] == option && f(todo[1]).Some?
    ensures MapSplits(option, f, argv, done + [option, f(todo[1]).value], todo[2..])
  {
    MapTakesTwo(option, f, todo);
  }

  lemma SplitsAfterOne(option: string, f: PathMap, argv: seq<string>, done: seq<string>, todo: seq<string>)
    requires MapSplits(option, f, argv, done, todo) && todo != [] && todo[0] != option
    ensures MapToken(option, f, todo[0]).None? ==> !MapAccepts(option, f, argv)
    ensures MapToken(option, f, todo[0]).Some? ==>
              MapSplits(option, f, argv, done + [MapToken(option, f, todo[0]).value], todo[1..])
  {
    MapTakesOne(option, f, todo);
  }

  /** The index loop of `map_path_option` over its copy of argv. */
  method MapOptionLoop(option: string, f: PathMap, argv: seq<string>)
    returns (accepted: bool, translated: seq<string>)
    ensures accepted == MapAccepts(option, f, argv)
    ensures accepted ==> translated == MapOption(option, f, argv)
  {
    translated := argv;
    var index := 0;
    ghost var done: seq<string>, todo := [], argv;
    while index < |translated|
      invariant |done| == index && translated == done + todo
      invariant MapSplits(option, f, argv, done, todo)
      decreases |translated| - index
    {
      var item := translated[index];
      assert item == todo[0];
      if item == option {
        if index + 1 >= |translated| {
          return false, [];
        }
        assert translated[index + 1] == todo[1];
        var value := f(translated[index + 1]);
        if value.None? {
          return false, [];
        }
        ReplaceSecond(done, todo, value.value);
        SplitsAfterTwo(option, f, argv, done, todo);
        translated := translated[index + 1 := value.value];
        done, todo := done + [option, value.value], todo[2..];
        index := index + 2;
      } else {
        SplitsAfterOne(option, f, argv, done, todo);
        ReplaceFirst(done, todo, item);
        if Assigns(item, option) {
          var value := f(item[|option| + 1..]);
          if value.None? {
            return false, [];
          }
          ReplaceFirst(done, todo, option + "=" + value.value);
          translated := translated[index := option + "=" + value.value];
        }
        done, todo := done + [translated[index]], todo[1..];
        index := index + 1;
      }
    }
    accepted := true;
  }
}
