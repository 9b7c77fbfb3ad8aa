/** The session that `dispatch` locks and the one that `_dispatch_once` authorises, over whole commands
    (`_request_session`, `_translate_argv`). */
module SessionLock {
  import opened Wrappers
  import opened Argv
  import opened SessionBinding
  import opened Translation
  import opened ScopeGrant
  import opened Claims

  // ----- whole commands ----------------------------------------------------

  /** What the host answers while argv is translated. */
  datatype Host = Host(
    paths: PathMap, repository: string, executionRoot: string, sandboxRoot: string, admission: Admission)

  /** Mapped paths are absolute, and the verified checkout facts are a JSON object and so no session. */
  ghost predicate Regular(host: Host) {
    AbsolutePaths(host.paths) && !IsSession(host.admission.facts)
  }

  /** The argv that is authorised: the caller's, after the rewriting of its command. */
  function Translated(argv: seq<string>, host: Host): Option<seq<string>>
    requires argv != []
  {
    if argv[0] == "claims" then
      if MapAccepts("--worktree", host.paths, argv)
      then Some(MapOption("--worktree", host.paths, argv)) else None
    else if argv[0] == "retire" then
      if |argv| < 2 || !IsSession(argv[1]) || !MapAccepts("--worktree", host.paths, argv) then None
      else
        var mapped := if "--inventory" in argv then argv else MapOption("--worktree", host.paths, argv);
        if !MapAccepts("--repository", _ => Some(host.repository), mapped) then None
        else Some(MapOption("--repository", _ => Some(host.repository), mapped)
                  + ["--execution-root", host.executionRoot, "--sandbox-root", host.sandboxRoot])
    else if argv[0] == "scope-grant" then Forwarded(argv, host.admission)
    else Some(argv)
  }

  lemma WorktreeTakesOne()
    ensures AllTakeOne(ValueOptions("claims"), {"--worktree"})
  {
  }

  lemma WorktreeInClaims()
    ensures var table := ValueOptions("claims");
            IsOptionName("--worktree") && "--worktree" in table && table["--worktree"] == Exactly(1)
  {
    WorktreeTakesOne();
    assert "--worktree" in {"--worktree"};
  }

  /** Translating a claims request maps the tokens after the command. */
  lemma ClaimsTranslated(argv: seq<string>, host: Host)
    requires argv != [] && argv[0] == "claims"
    ensures Translated(argv, host).Some? <==> MapAccepts("--worktree", host.paths, argv[1..])
    ensures Translated(argv, host).Some? ==>
              && Translated(argv, host).value != [] && Translated(argv, host).value[0] == "claims"
              && Translated(argv, host).value[1..] == MapOption("--worktree", host.paths, argv[1..])
  {
    assert argv == ["claims"] + argv[1..];
    MapCopies("--worktree", host.paths, ["claims"], argv[1..]);
  }

  lemma {:induction false} NothingToMap(option: string, f: PathMap, tokens: seq<string>)
    requires !HasOption(tokens, option)
    ensures MapAccepts(option, f, tokens) && MapOption(option, f, tokens) == tokens
    decreases |tokens|
  {
    if tokens != [] {
      assert tokens[0] in tokens && forall item <- tokens[1..] :: item in tokens;
      NothingToMap(option, f, tokens[1..]);
      assert tokens == [tokens[0]] + tokens[1..];
    }
  }

  /** Retirement's own checks of its arguments are left out here, so no request with a session in front is
      missed: without paths to map each of them is covered. Whatever is covered keeps the command and the
      session in front and has the roots added. */
  lemma RetirementsPass(argv: seq<string>, host: Host)
    requires argv != [] && argv[0] == "retire"
    ensures var roots := ["--execution-root", host.executionRoot, "--sandbox-root", host.sandboxRoot];
            var after := Translated(argv, host);
            && (after.Some? ==> |argv| > 1 && IsSession(argv[1]) && |after.value| == |argv| + 4
                                && after.value[..2] == argv[..2] && after.value[|argv|..] == roots)
            && (!HasOption(argv, "--worktree") && !HasOption(argv, "--repository") ==>
                  after == if |argv| > 1 && IsSession(argv[1]) then Some(argv + roots) else None)
  {
    if !HasOption(argv, "--worktree") && !HasOption(argv, "--repository") {
      NothingToMap("--worktree", host.paths, argv);
      NothingToMap("--repository", _ => Some(host.repository), argv);
    }
    if Translated(argv, host).Some? {
      var mapped := if "--inventory" in argv then argv else MapOption("--worktree", host.paths, argv);
      FirstTwoStay("--worktree", host.paths, argv);
      FirstTwoStay("--repository", _ => Some(host.repository), mapped);
    }
  }

  lemma FirstTwoStay(option: string, f: PathMap, argv: seq<string>)
    requires |argv| > 1 && argv[0] == "retire" && IsSession(argv[1]) && MapAccepts(option, f, argv)
    requires |option| > 0 && option[0] == '-'
    ensures MapOption(option, f, argv)[..2] == argv[..2]
  {
    var rest := argv[1..];
    assert argv[0][0] == 'r' && rest[0][0] == 's';
    assert argv[0] != option && !Assigns(argv[0], option) && rest[0] != option && !Assigns(rest[0], option);
    assert MapOption(option, f, argv) == [argv[0]] + MapOption(option, f, rest);
    assert MapOption(option, f, rest) == [rest[0]] + MapOption(option, f, rest[1..]);
  }

  /** The sessions of a claims request, locked and authorised. */
  lemma ClaimsSessions(argv: seq<string>)
    requires argv != [] && argv[0] == "claims"
    ensures var found := SessionOf(FirstSession(Scan(ValueOptions("claims"), argv[1..], 1)));
            RequestSession(argv, None) == found && AuthorizedSession(argv) == found
  {
  }

  /** A session in second place is the first positional whatever follows. */
  lemma SecondTokenIsSession(argv: seq<string>)
    requires |argv| >= 2 && IsSession(argv[1]) && argv[0] == "retire"
    ensures SessionOf(SessionArgument(ValueOptions(argv[0]), argv)) == Some(argv[1])
  {
    assert argv[1..][0] == argv[1];
  }

  lemma RetireKeepsSession(argv: seq<string>, host: Host)
    requires argv != [] && argv[0] == "retire" && Translated(argv, host).Some?
    ensures AuthorizedSession(Translated(argv, host).value) == RequestSession(argv, None)
  {
    RetirementsPass(argv, host);
    var after := Translated(argv, host).value;
    assert after[..2][0] == argv[..2][0] && after[..2][1] == argv[..2][1];
    SecondTokenIsSession(argv);
    SecondTokenIsSession(after);
  }

  /** A claims request whose session changes once the tokens that follow a `--worktree`, wherever that
      stands, are blanked. */
  predicate ClaimsShift(argv: seq<string>)
    requires argv != []
  {
    var table, tokens := ValueOptions("claims"), argv[1..];
    SessionOf(FirstSession(Scan(table, Blanked(tokens, Consumed("--worktree", tokens)), 1)))
    != SessionOf(FirstSession(Scan(table, tokens, 1)))
  }

  /** Only claims and scope-grant requests can shift their session; which do is read off their argv. */
  predicate Shifts(argv: seq<string>)
    requires argv != []
  {
    (argv[0] == "claims" && ClaimsShift(argv)) || (argv[0] == "scope-grant" && GrantShifts(argv))
  }

  lemma ClaimsShiftExactly(argv: seq<string>, host: Host)
    requires argv != [] && argv[0] == "claims" && AbsolutePaths(host.paths) && Translated(argv, host).Some?
    ensures AuthorizedSession(Translated(argv, host).value) == RequestSession(argv, None) <==> !ClaimsShift(argv)
  {
    WorktreeInClaims();
    ClaimsTranslated(argv, host);
    ClaimsSessions(argv);
    ClaimsSessions(Translated(argv, host).value);
    MappedSession(ValueOptions("claims"), "--worktree", host.paths, argv[1..], 1);
  }

  lemma GrantsShiftExactly(argv: seq<string>, host: Host)
    requires argv != [] && argv[0] == "scope-grant" && !IsSession(host.admission.facts)
    requires Translated(argv, host).Some?
    ensures AuthorizedSession(Translated(argv, host).value) == RequestSession(argv, None) <==> !GrantShifts(argv)
  {
    AdmissionKeepsSessionExactly(argv, host.admission);
  }

  /** What is not rewritten names one session. */
  lemma OthersKeepSession(argv: seq<string>, host: Host)
    requires argv != [] && argv[0] in AUTHORIZED_COMMANDS && argv[0] !in {"claims", "retire", "scope-grant"}
    ensures Translated(argv, host) == Some(argv) && AuthorizedSession(argv) == RequestSession(argv, None)
  {
  }

  /** For every argv that translation accepts, the session locked by `dispatch` is the one authorised
      after translation exactly where the request does not shift its session, whatever the host answers. */
  lemma AuthorizedSessionIsLocked(argv: seq<string>, host: Host)
    requires argv != [] && argv[0] in AUTHORIZED_COMMANDS && Regular(host)
    requires Translated(argv, host).Some?
    ensures AuthorizedSession(Translated(argv, host).value) == RequestSession(argv, None) <==> !Shifts(argv)
  {
    if argv[0] == "claims" {
      ClaimsShiftExactly(argv, host);
    } else if argv[0] == "retire" {
      RetireKeepsSession(argv, host);
    } else if argv[0] == "scope-grant" {
      GrantsShiftExactly(argv, host);
    } else {
      OthersKeepSession(argv, host);
    }
  }

  /** The token that names the locked session is one that the mapping replaces, and the first session
      positional that it leaves standing, if any, is another. */
  predicate LockIsReplaced(argv: seq<string>)
    requires argv != []
  {
    FirstIsReplaced(Scan(ValueOptions("claims"), argv[1..], 1), Consumed("--worktree", argv[1..]), 1)
  }

  /** Where the mapping replaces no token that the scanner reads as an option, a claims request is
      authorised for another session than it locks exactly if the mapping replaces the one it locks. */
  lemma ClaimsDifferExactly(argv: seq<string>, host: Host)
    requires argv != [] && argv[0] == "claims" && AbsolutePaths(host.paths) && Translated(argv, host).Some?
    requires OptionsKept(ValueOptions("claims"), argv[1..], Consumed("--worktree", argv[1..]))
    ensures AuthorizedSession(Translated(argv, host).value) != RequestSession(argv, None) <==> LockIsReplaced(argv)
  {
    WorktreeInClaims();
    ClaimsTranslated(argv, host);
    ClaimsSessions(argv);
    ClaimsSessions(Translated(argv, host).value);
    MappingShiftsSession(ValueOptions("claims"), "--worktree", host.paths, argv[1..], 1);
  }

  /** A caller whose option values do not start with `-` meets that condition. */
  lemma PlainClaimsDifferExactly(argv: seq<string>, host: Host)
    requires argv != [] && argv[0] == "claims" && AbsolutePaths(host.paths) && Translated(argv, host).Some?
    requires PlainValues(ValueOptions("claims"), argv[1..])
    ensures AuthorizedSession(Translated(argv, host).value) != RequestSession(argv, None) <==> LockIsReplaced(argv)
  {
    var tokens := argv[1..];
    WorktreeInClaims();
    ConsumedFollow("--worktree", "claims", tokens);
    PlainIsKept(ValueOptions("claims"), "--worktree", "claims", tokens, Consumed("--worktree", tokens));
    ClaimsDifferExactly(argv, host);
  }

  /** Where no option takes a dashed token as its value, the authorised session is the locked one exactly
      unless a claims request has the token replaced that names it. */
  lemma PlainRequestsAreLocked(argv: seq<string>, host: Host)
    requires argv != [] && argv[0] in AUTHORIZED_COMMANDS && Regular(host) && Translated(argv, host).Some?
    requires PlainValues(ValueOptions(argv[0]), argv[1..])
    ensures AuthorizedSession(Translated(argv, host).value) == RequestSession(argv, None)
       <==> !(argv[0] == "claims" && LockIsReplaced(argv))
  {
    AuthorizedSessionIsLocked(argv, host);
    if argv[0] == "claims" {
      PlainClaimsDifferExactly(argv, host);
    } else if argv[0] == "scope-grant" {
      PlainValuesDoNotShift(argv);
    }
  }

  // ----- argv on which the sessions differ --------------------------------------

  lemma MapAfter(option: string, f: PathMap, front: seq<string>, a: string, rest: seq<string>)
    requires forall t <- front :: !Resembles(t, option)
    requires f(a).Some? && forall t <- rest :: !Resembles(t, option)
    ensures MapAccepts(option, f, front + [option, a] + rest)
    ensures MapOption(option, f, front + [option, a] + rest) == front + [option, f(a).value] + rest
  {
    MapCopies(option, f, rest, []);
    assert rest + [] == rest;
    var tail := [option, a] + rest;
    assert tail[2..] == rest;
    MapCopies(option, f, front, tail);
    assert front + [option, a] + rest == front + tail;
    assert front + [option, f(a).value] + rest == front + ([option, f(a).value] + rest);
  }

  lemma FoundOption(table: Table, option: string, value: string, rest: seq<string>)
    requires IsOptionName(option) && option in table && table[option] == Exactly(1)
    ensures Found(table, [option, value] + rest) == Found(table, rest)
  {
    OptionNameWithoutEquals(option);
    assert Skip([option, value] + rest, 2) == rest;
  }

  lemma FoundWord(table: Table, word: string, rest: seq<string>)
    requires !Dashed(word)
    ensures Found(table, [word] + rest) == if IsSession(word) then Some(word) else Found(table, rest)
  {
    assert ([word] + rest)[1..] == rest;
  }

  lemma SessionsAreFound(argv: seq<string>, host: Host)
    requires argv != [] && argv[0] == "claims" && MapAccepts("--worktree", host.paths, argv[1..])
    ensures Translated(argv, host).Some?
    ensures RequestSession(argv, None) == Found(ValueOptions("claims"), argv[1..])
    ensures AuthorizedSession(Translated(argv, host).value)
         == Found(ValueOptions("claims"), MapOption("--worktree", host.paths, argv[1..]))
  {
    ClaimsTranslated(argv, host);
    ClaimsSessions(argv);
    ClaimsSessions(Translated(argv, host).value);
    FoundIsSession(ValueOptions("claims"), argv[1..], 1);
    FoundIsSession(ValueOptions("claims"), MapOption("--worktree", host.paths, argv[1..]), 1);
  }

  lemma AssignsWithEquals(token: string, option: string)
    ensures Assigns(token, option) ==> '=' in token
  {
    if Assigns(token, option) {
      assert token[|option|] in token;
    }
  }

  lemma Foreign(option: string, tokens: seq<string>)
    requires IsOptionName(option)
    requires forall t <- tokens :: !Dashed(t) || ('=' !in t && t != option)
    ensures forall t <- tokens :: !Resembles(t, option)
  {
    forall t <- tokens ensures !Resembles(t, option) {
      ResemblingIsDashed(t, option);
      AssignsWithEquals(t, option);
    }
  }

  /** `--reason` takes `--worktree` as its value: the walk replaces the session after it. */
  lemma HiddenInValue(table: Table, reason: string, option: string, a: string, b: string, f: PathMap)
    requires AllTakeOne(table, {reason, option}) && reason != option
    requires IsSession(a) && IsSession(b) && f(a).Some? && IsWord(f(a).value)
    ensures var tokens := [reason, option, a, b];
            && MapAccepts(option, f, tokens)
            && Found(table, tokens) == Some(a) && Found(table, MapOption(option, f, tokens)) == Some(b)
  {
    assert reason in {reason, option} && option in {reason, option};
    Foreign(option, [reason]);
    Foreign(option, [b]);
    MapAfter(option, f, [reason], a, [b]);
    assert [reason, option, a, b] == [reason] + [option, a] + [b] == [reason, option] + ([a] + [b]);
    assert [reason, option, f(a).value, b] == [reason] + [option, f(a).value] + [b]
        == [reason, option] + ([f(a).value] + ([b] + []));
    FoundOption(table, reason, option, [a] + [b]);
    FoundOption(table, reason, option, [f(a).value] + ([b] + []));
    FoundWord(table, a, [b]);
    FoundWord(table, f(a).value, [b] + []);
    FoundWord(table, b, []);
  }

  lemma FoundLiteral(table: Table, option: string, a: string, b: string)
    requires Dashed(option) && IsSession(b)
    ensures Found(table, ["--", option, a, b]) == if IsSession(a) then Some(a) else Some(b)
  {
    assert ["--", option, a, b][1..] == [option, a, b];
    assert [option, a, b][1..] == [a, b];
    assert [a, b][1..] == [b];
    assert FirstSessionValue([b]) == Some(b);
    assert FirstSessionValue([a, b]) == if IsSession(a) then Some(a) else Some(b);
    assert !IsSession(option);
  }

  /** After `--` the walk still replaces the token that follows `--worktree`. */
  lemma HiddenInLiterals(table: Table, option: string, a: string, b: string, f: PathMap)
    requires AllTakeOne(table, {option})
    requires IsSession(a) && IsSession(b) && f(a).Some? && IsWord(f(a).value)
    ensures var tokens := ["--", option, a, b];
            && MapAccepts(option, f, tokens)
            && Found(table, tokens) == Some(a) && Found(table, MapOption(option, f, tokens)) == Some(b)
            && PlainValues(table, tokens)
  {
    assert option in {option};
    Foreign(option, ["--"]);
    Foreign(option, [b]);
    MapAfter(option, f, ["--"], a, [b]);
    assert ["--", option, a, b] == ["--"] + [option, a] + [b];
    var c := f(a).value;
    assert ["--", option, c, b] == ["--"] + [option, c] + [b];
    FoundLiteral(table, option, a, b);
    FoundLiteral(table, option, c, b);
  }

  /** `--reason` takes `--worktree`, and the walk replaces the option after it: what was its value is
      read as the session. */
  lemma HiddenBeforeOption(
      table: Table, reason: string, option: string, branch: string, a: string, b: string, f: PathMap)
    requires AllTakeOne(table, {reason, option, branch}) && reason != option && branch != option
    requires IsSession(a) && IsSession(b) && f(branch).Some? && IsWord(f(branch).value)
    ensures var tokens := [reason, option, branch, a, b];
            && MapAccepts(option, f, tokens)
            && Found(table, tokens) == Some(b) && Found(table, MapOption(option, f, tokens)) == Some(a)
  {
    assert reason in {reason, option, branch} && option in {reason, option, branch};
    assert branch in {reason, option, branch};
    Foreign(option, [reason]);
    Foreign(option, [a, b]);
    MapAfter(option, f, [reason], branch, [a, b]);
    var c := f(branch).value;
    assert [reason, option, branch, a, b] == [reason] + [option, branch] + [a, b]
        == [reason, option] + ([branch, a] + ([b] + []));
    assert [reason, option, c, a, b] == [reason] + [option, c] + [a, b]
        == [reason, option] + ([c] + ([a] + [b]));
    FoundOption(table, reason, option, [branch, a] + ([b] + []));
    FoundOption(table, branch, a, [b] + []);
    FoundWord(table, b, []);
    FoundOption(table, reason, option, [c] + ([a] + [b]));
    FoundWord(table, c, [a] + [b]);
    FoundWord(table, a, [b]);
  }

  lemma ReasonTakesOne()
    ensures AllTakeOne(ValueOptions("claims"), {"--reason", "--worktree"})
  {
  }

  lemma BranchTakesOne()
    ensures AllTakeOne(ValueOptions("claims"), {"--reason", "--worktree", "--branch"})
  {
  }

  lemma Differs(tokens: seq<string>, host: Host)
    requires MapAccepts("--worktree", host.paths, tokens)
    requires Found(ValueOptions("claims"), MapOption("--worktree", host.paths, tokens))
          != Found(ValueOptions("claims"), tokens)
    ensures var argv := ["claims"] + tokens;
            && Translated(argv, host).Some?
            && AuthorizedSession(Translated(argv, host).value) != RequestSession(argv, None)
  {
    assert (["claims"] + tokens)[1..] == tokens && (["claims"] + tokens)[0] == "claims";
    SessionsAreFound(["claims"] + tokens, host);
  }

  /** `--worktree` as the value of an option, before a session. */
  lemma MisalignedClaimsDiffer(a: string, b: string, host: Host)
    requires IsSession(a) && IsSession(b) && a != b && host.paths(a).Some? && IsWord(host.paths(a).value)
    ensures var argv := ["claims"] + ["--reason", "--worktree", a, b];
            && Translated(argv, host).Some?
            && AuthorizedSession(Translated(argv, host).value) != RequestSession(argv, None)
  {
    ReasonTakesOne();
    HiddenInValue(ValueOptions("claims"), "--reason", "--worktree", a, b, host.paths);
    Differs(["--reason", "--worktree", a, b], host);
  }

  /** `--worktree` behind `--`, before a session; no option has a value at all. */
  lemma LiteralClaimsDiffer(a: string, b: string, host: Host)
    requires IsSession(a) && IsSession(b) && a != b && host.paths(a).Some? && IsWord(host.paths(a).value)
    ensures var argv := ["claims"] + ["--", "--worktree", a, b];
            && Translated(argv, host).Some?
            && AuthorizedSession(Translated(argv, host).value) != RequestSession(argv, None)
  {
    WorktreeTakesOne();
    HiddenInLiterals(ValueOptions("claims"), "--worktree", a, b, host.paths);
    Differs(["--", "--worktree", a, b], host);
  }

  /** `--worktree` as the value of an option, before another option: the locked session is not
      replaced. */
  lemma DisplacedClaimsDiffer(a: string, b: string, host: Host)
    requires IsSession(a) && IsSession(b) && a != b
    requires host.paths("--branch").Some? && IsWord(host.paths("--branch").value)
    ensures var argv := ["claims"] + ["--reason", "--worktree", "--branch", a, b];
            && Translated(argv, host).Some?
            && AuthorizedSession(Translated(argv, host).value) != RequestSession(argv, None)
  {
    BranchTakesOne();
    assert "--branch" != "--worktree";
    HiddenBeforeOption(ValueOptions("claims"), "--reason", "--worktree", "--branch", a, b, host.paths);
    Differs(["--reason", "--worktree", "--branch", a, b], host);
  }

  lemma AcquireTakesOne()
    ensures AllTakeOne(ValueOptions("claims"), {"--acquire", "--worktree"}) && "--acquire" != "--worktree"
  {
  }

  lemma HiddenBehindOption(
      table: Table, acquire: string, option: string, value: string, a: string, b: string, f: PathMap)
    requires AllTakeOne(table, {acquire, option}) && acquire != option && !Dashed(value)
    requires IsSession(a) && IsSession(b) && f(a).Some? && IsWord(f(a).value)
    ensures var tokens := [acquire, value] + ["--", option, a, b];
            && MapAccepts(option, f, tokens) && MapOption(option, f, tokens)[0] == acquire
            && Found(table, tokens) == Some(a) && Found(table, MapOption(option, f, tokens)) == Some(b)
  {
    var front, rest := [acquire, value], ["--", option, a, b];
    assert acquire in {acquire, option} && option in {acquire, option};
    assert AllTakeOne(table, {option});
    HiddenInLiterals(table, option, a, b, f);
    Foreign(option, front);
    MapCopies(option, f, front, rest);
    FoundOption(table, acquire, value, rest);
    FoundOption(table, acquire, value, MapOption(option, f, rest));
  }

  lemma AcquiresWith(argv: seq<string>)
    requires |argv| >= 2 && argv[0] == "claims" && argv[1] == "--acquire"
    ensures RequiresSelectedSession(argv)
  {
    assert argv[1] in argv;
  }

  /** So does a claims request that acquires, and must match the grant's selected session after
      translation: it is locked under one session and executes for the other. */
  lemma AcquiringClaimDiffers(a: string, b: string, repository: string, host: Host)
    requires IsSession(a) && IsSession(b) && a != b && host.paths(a).Some? && IsWord(host.paths(a).value)
    requires !Dashed(repository)
    ensures var argv := ["claims"] + (["--acquire", repository] + ["--", "--worktree", a, b]);
            && RequestSession(argv, None) == Some(a) && Translated(argv, host).Some?
            && AuthorizedSession(Translated(argv, host).value) == Some(b)
            && RequiresSelectedSession(argv) && RequiresSelectedSession(Translated(argv, host).value)
  {
    var tokens := ["--acquire", repository] + ["--", "--worktree", a, b];
    var argv := ["claims"] + tokens;
    AcquireTakesOne();
    HiddenBehindOption(ValueOptions("claims"), "--acquire", "--worktree", repository, a, b, host.paths);
    assert argv[1..] == tokens && argv[0] == "claims";
    SessionsAreFound(argv, host);
    ClaimsTranslated(argv, host);
    AcquiresWith(argv);
    AcquiresWith(Translated(argv, host).value);
  }

  // ----- the selection lock is decided on the caller's argv ------------------

  /** Mapping paths introduces no occurrence of another option. */
  lemma {:induction false} MappingAddsNoOption(mapped: string, other: string, f: PathMap, tokens: seq<string>)
    requires IsOptionName(mapped) && IsOptionName(other) && mapped != other
    requires forall v :: f(v).Some? ==> !Dashed(f(v).value)
    requires MapAccepts(mapped, f, tokens)
    ensures HasOption(MapOption(mapped, f, tokens), other) ==> HasOption(tokens, other)
    decreases |tokens|
  {
    if tokens != [] {
      var w := if tokens[0] == mapped then 2 else 1;
      MappingAddsNoOption(mapped, other, f, tokens[w..]);
      var image := MapOption(mapped, f, tokens);
      forall t | t in image && Resembles(t, other) ensures HasOption(tokens, other) {
        ResemblingIsDashed(t, other);
        ResemblingIsDashed(tokens[0], mapped);
        if tokens[0] == mapped {
          assert image == [mapped, f(tokens[1]).value] + MapOption(mapped, f, tokens[2..]);
        } else if Assigns(tokens[0], mapped) {
          OptionNameOfAssigned(mapped, f(tokens[0][|mapped| + 1..]).value);
        }
        assert t in MapOption(mapped, f, tokens[w..]) || t == tokens[0];
      }
    }
  }

  /** A claims request that must match the selected session holds the selection lock: `dispatch`
      decides on the raw argv and `_dispatch_once` on the translated one. */
  lemma CheckedClaimsWereLocked(argv: seq<string>, host: Host)
    requires argv != [] && argv[0] == "claims" && Translated(argv, host).Some? && AbsolutePaths(host.paths)
    ensures RequiresSelectedSession(Translated(argv, host).value) ==> RequiresSelectedSession(argv)
  {
    var t := Translated(argv, host).value;
    WorktreeInClaims();
    ClaimsTranslated(argv, host);
    MappingAddsNoOption("--worktree", "--acquire", host.paths, argv);
    MappingAddsNoOption("--worktree", "--release", host.paths, argv);
    MappingAddsNoOption("--worktree", "--transfer-to", host.paths, argv);
  }
}
