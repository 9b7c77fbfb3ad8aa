/** Scope admission with an owner's reference that spells a checkout option. */
module ScopeReference {
  import opened Wrappers
  import opened Argv
  import opened SessionBinding
  import opened Translation
  import opened ScopeGrant
  import opened Claims
  import opened SessionLock

  /** `option=value` as one token. */
  function Assign(option: string, value: string): string {
    option + "=" + value
  }

  predicate LongName(option: string) {
    |option| >= 2 && option[0] == '-' && option[1] == '-' && !IsTerminator(option) && '=' !in option
  }

  lemma AssignedToken(option: string, value: string)
    requires LongName(option)
    ensures var token := Assign(option, value);
            && IsAssignment(token) && OptionName(token) == option && AssignedValue(token) == value
            && Dashed(token) && !IsTerminator(token) && |option| < |token|
  {
    var token := Assign(option, value);
    OptionNameOfAssigned(option, value);
    assert token[|option|] == '=';
    assert '=' in token;
    assert token[|option| + 1..] == value;
  }

  lemma ReadsAssignment(names: set<string>, option: string, value: string, rest: seq<string>, values: Settings)
    requires LongName(option) && Acceptable(names, values, option, value)
    ensures ReadOptions(names, [Assign(option, value)] + rest, values)
         == ReadOptions(names, rest, values[option := value])
  {
    AssignedToken(option, value);
    assert ([Assign(option, value)] + rest)[1..] == rest;
  }

  lemma ReadsPair(names: set<string>, option: string, value: string, rest: seq<string>, values: Settings)
    requires LongName(option) && Acceptable(names, values, option, value)
    ensures ReadOptions(names, [option, value] + rest, values) == ReadOptions(names, rest, values[option := value])
  {
    assert ([option, value] + rest)[2..] == rest;
  }

  lemma KeepsToken(names: set<string>, token: string, rest: seq<string>)
    requires token !in names && !Drops(names, token)
    ensures RemoveOptions(names, [token] + rest) == [token] + RemoveOptions(names, rest)
  {
    assert ([token] + rest)[1..] == rest;
  }

  lemma DropsPair(names: set<string>, name: string, value: string, rest: seq<string>)
    requires name in names
    ensures RemoveOptions(names, [name, value] + rest) == RemoveOptions(names, rest)
  {
    assert Skip([name, value] + rest, 2) == rest;
  }

  lemma KeepsAssignment(names: set<string>, option: string, value: string)
    requires LongName(option) && option !in names && forall name <- names :: IsOptionName(name)
    ensures Assign(option, value) !in names && !Drops(names, Assign(option, value))
  {
    AssignedToken(option, value);
    forall name <- names ensures !Resembles(Assign(option, value), name) {
      ResemblingIsDashed(Assign(option, value), name);
    }
  }

  lemma DropsAssignment(names: set<string>, option: string, value: string)
    requires LongName(option) && option in names
    ensures RemoveOptions(names, [Assign(option, value)]) == []
  {
    var token := Assign(option, value);
    AssignedToken(option, value);
    assert token[..|option|] == option && token[|option|] == '=';
    if token in names {
      assert Skip([token], 2) == [];
    } else {
      assert Drops(names, token);
      assert [token][1..] + [] == [token][1..];
      assert RemoveOptions(names, [token][1..]) == [];
    }
  }

  /** The two tokens of the reference, an option with its value, and three assignments. */
  function Arguments(approval: string, name: string, sets: seq<(string, string)>): seq<string>
    requires |sets| == 4
  {
    [approval, name] + ([sets[0].0, sets[0].1] + ([Assign(sets[1].0, sets[1].1)]
    + ([Assign(sets[2].0, sets[2].1)] + ([Assign(sets[3].0, sets[3].1)] + []))))
  }

  predicate Distinct(approval: string, sets: seq<(string, string)>) {
    && (forall k :: 0 <= k < |sets| ==> LongName(sets[k].0) && sets[k].0 != approval)
    && (forall i, k :: 0 <= i < k < |sets| ==> sets[i].0 != sets[k].0)
  }

  lemma ReadsArguments(names: set<string>, approval: string, name: string, sets: seq<(string, string)>)
    requires |sets| == 4 && LongName(approval) && approval in names && Distinct(approval, sets)
    requires name != "" && '\0' !in name
    requires forall k :: 0 <= k < 4 ==> sets[k].0 in names && sets[k].1 != "" && '\0' !in sets[k].1
    ensures ReadOptions(names, Arguments(approval, name, sets), map[])
         == Some(map[approval := name, sets[0].0 := sets[0].1, sets[1].0 := sets[1].1,
                     sets[2].0 := sets[2].1, sets[3].0 := sets[3].1])
  {
    var v0: Settings := map[approval := name];
    var v1 := v0[sets[0].0 := sets[0].1];
    var v2 := v1[sets[1].0 := sets[1].1];
    var v3 := v2[sets[2].0 := sets[2].1];
    var t3 := [Assign(sets[3].0, sets[3].1)] + [];
    var t2 := [Assign(sets[2].0, sets[2].1)] + t3;
    var t1 := [Assign(sets[1].0, sets[1].1)] + t2;
    ReadsPair(names, approval, name, [sets[0].0, sets[0].1] + t1, map[]);
    ReadsPair(names, sets[0].0, sets[0].1, t1, v0);
    ReadsAssignment(names, sets[1].0, sets[1].1, t2, v1);
    ReadsAssignment(names, sets[2].0, sets[2].1, t3, v2);
    ReadsAssignment(names, sets[3].0, sets[3].1, [], v3);
  }

  /** What removal leaves of the arguments with a session in third place. */
  function Left(approval: string, sets: seq<(string, string)>): seq<string>
    requires |sets| == 4
  {
    [approval] + ([sets[0].0] + ([sets[0].1] + ([Assign(sets[1].0, sets[1].1)]
    + ([Assign(sets[2].0, sets[2].1)] + []))))
  }

  lemma RemovesArguments(
      names: set<string>, approval: string, name: string, x: string, sets: seq<(string, string)>)
    requires |sets| == 4 && forall n <- names :: IsOptionName(n)
    requires LongName(approval) && approval !in names && name in names && !Dashed(sets[0].1)
    requires (forall k :: 0 <= k < 3 ==> LongName(sets[k].0) && sets[k].0 !in names)
    requires LongName(sets[3].0) && sets[3].0 in names
    ensures RemoveOptions(names, [approval] + ([name, x] + Arguments(approval, name, sets)[2..]))
         == Left(approval, sets)
  {
    var t3 := [Assign(sets[3].0, sets[3].1)];
    var t2 := [Assign(sets[2].0, sets[2].1)] + t3;
    var t1 := [Assign(sets[1].0, sets[1].1)] + t2;
    var t0 := [sets[0].0] + ([sets[0].1] + t1);
    assert t3 + [] == t3 && Arguments(approval, name, sets)[2..] == t0;
    NotDropped(names, approval);
    NotDropped(names, sets[0].0);
    NotDropped(names, sets[0].1);
    KeepsToken(names, approval, [name, x] + t0);
    DropsPair(names, name, x, t0);
    KeepsToken(names, sets[0].0, [sets[0].1] + t1);
    KeepsToken(names, sets[0].1, t1);
    KeepsAssignment(names, sets[1].0, sets[1].1);
    KeepsToken(names, Assign(sets[1].0, sets[1].1), t2);
    KeepsAssignment(names, sets[2].0, sets[2].1);
    KeepsToken(names, Assign(sets[2].0, sets[2].1), t3);
    DropsAssignment(names, sets[3].0, sets[3].1);
  }

  /** Another option's name and an undashed value are kept. */
  lemma NotDropped(names: set<string>, token: string)
    requires forall n <- names :: IsOptionName(n)
    requires !Dashed(token) || (LongName(token) && token !in names)
    ensures token !in names && !Drops(names, token)
  {
    forall n <- names ensures !Resembles(token, n) {
      ResemblingIsDashed(token, n);
      if LongName(token) {
        OptionNameWithoutEquals(token);
      }
    }
  }

  lemma SessionInThirdPlace(table: Table, approval: string, name: string, x: string, rest: seq<string>)
    requires AllTakeOne(table, {approval}) && IsSession(x)
    ensures FirstSession(Scan(table, [approval] + ([name, x] + rest), 1)) == Some((3, x))
    ensures Without([approval] + ([name, x] + rest), 2) == [approval, name] + rest
  {
    assert approval in {approval};
    OptionNameWithoutEquals(approval);
    assert [approval] + ([name, x] + rest) == [approval, name] + ([x] + rest);
    ScanOption(table, [approval, name], [x] + rest, 1);
    ScanPositional(table, x, rest, 3);
  }

  lemma FoundAssigned(table: Table, option: string, value: string, rest: seq<string>)
    requires LongName(option)
    ensures Found(table, [Assign(option, value)] + rest) == Found(table, rest)
  {
    AssignedToken(option, value);
    assert Skip([Assign(option, value)] + rest, 1) == rest;
  }

  /** The reference's option takes the next option's name as its value, and that option's value is read
      as a positional. */
  lemma FoundInLeft(table: Table, approval: string, sets: seq<(string, string)>)
    requires |sets| == 4 && AllTakeOne(table, {approval}) && !Dashed(sets[0].1)
    requires forall k :: 0 <= k < 3 ==> LongName(sets[k].0)
    ensures Found(table, Left(approval, sets)) == if IsSession(sets[0].1) then Some(sets[0].1) else None
  {
    assert approval in {approval};
    var t2 := [Assign(sets[2].0, sets[2].1)] + [];
    var t1 := [Assign(sets[1].0, sets[1].1)] + t2;
    assert Left(approval, sets) == [approval, sets[0].0] + ([sets[0].1] + t1);
    FoundOption(table, approval, sets[0].0, [sets[0].1] + t1);
    FoundWord(table, sets[0].1, t1);
    FoundAssigned(table, sets[1].0, sets[1].1, t2);
    FoundAssigned(table, sets[2].0, sets[2].1, []);
  }

  // ----- the request --------------------------------------------------------------

  const CHECKOUT := "--checkout"

  /** The options set beside the reference. */
  function Given(campaign: string, revision: string): (sets: seq<(string, string)>)
    ensures |sets| == 4
  {
    [(CAMPAIGN, campaign), (REPOSITORY, "r"), (REVISION, revision), (CHECKOUT, "w")]
  }

  predicate IsCampaign(campaign: string) {
    IsName(campaign, 159, {'.', '_', ':', '-'})
  }

  lemma GivenAreLong(campaign: string, revision: string)
    ensures forall k :: 0 <= k < 4 ==> LongName(Given(campaign, revision)[k].0)
    ensures LongName(APPROVAL)
  {
    forall k | 0 <= k < 4 ensures LongName(Given(campaign, revision)[k].0) {
      assert k == 0 || k == 1 || k == 2 || k == 3;
    }
  }

  lemma Lengths()
    ensures |CAMPAIGN| == 13 && |REPOSITORY| == 12 && |REVISION| == 29 && |CHECKOUT| == 10 && |APPROVAL| == 20
    ensures |"--workspace-checkout"| == 20 && |"--owner-authorized-checkout-json"| == 32
    ensures APPROVAL[2] == 'a' && "--workspace-checkout"[2] == 'w'
  {
  }

  lemma GivenAreDistinct(campaign: string, revision: string)
    ensures Distinct(APPROVAL, Given(campaign, revision))
  {
    GivenAreLong(campaign, revision);
    Lengths();
  }

  lemma GivenAreOptions(campaign: string, revision: string)
    ensures var given := Given(campaign, revision);
            forall k :: 0 <= k < 4 ==> given[k].0 in GRANT_OPTIONS && (given[k].0 in CHECKOUT_OPTIONS <==> k == 3)
    ensures APPROVAL in GRANT_OPTIONS && APPROVAL !in CHECKOUT_OPTIONS && CHECKOUT in CHECKOUT_OPTIONS
  {
    assert CAMPAIGN in REQUIRED_OPTIONS && REPOSITORY in REQUIRED_OPTIONS && REVISION in REQUIRED_OPTIONS;
    assert CHECKOUT in CHECKOUT_OPTIONS && APPROVAL in {APPROVAL};
    Lengths();
  }

  /** The request of session `x` that gives `--checkout` as its reference. */
  function Request(x: string, campaign: string, revision: string): seq<string> {
    ["scope-grant"] + ([APPROVAL] + ([CHECKOUT, x] + Arguments(APPROVAL, CHECKOUT, Given(campaign, revision))[2..]))
  }

  function ReadFrom(campaign: string, revision: string): Settings {
    map[APPROVAL := CHECKOUT, CAMPAIGN := campaign, REPOSITORY := "r", REVISION := revision, CHECKOUT := "w"]
  }

  lemma RequestIsScanned(x: string, campaign: string, revision: string)
    requires IsSession(x)
    ensures var argv := Request(x, campaign, revision);
            && SessionArgument(ValueOptions("scope-grant"), argv) == Some((3, x))
            && Without(argv[1..], 2) == Arguments(APPROVAL, CHECKOUT, Given(campaign, revision))
  {
    var rest := Arguments(APPROVAL, CHECKOUT, Given(campaign, revision))[2..];
    ApprovalTakesOne();
    SessionInThirdPlace(ValueOptions("scope-grant"), APPROVAL, CHECKOUT, x, rest);
    assert Request(x, campaign, revision)[1..] == [APPROVAL] + ([CHECKOUT, x] + rest);
  }

  lemma GivenAreRead(campaign: string, revision: string)
    requires IsCampaign(campaign) && IsRevision(revision)
    ensures ReadOptions(GRANT_OPTIONS, Arguments(APPROVAL, CHECKOUT, Given(campaign, revision)), map[])
         == Some(ReadFrom(campaign, revision))
  {
    var given := Given(campaign, revision);
    GivenAreDistinct(campaign, revision);
    GivenAreLong(campaign, revision);
    GivenAreOptions(campaign, revision);
    forall k | 0 <= k < 4 ensures given[k].1 != "" && '\0' !in given[k].1 {
      assert k == 0 || k == 1 || k == 2 || k == 3;
    }
    ReadsArguments(GRANT_OPTIONS, APPROVAL, CHECKOUT, given);
  }

  lemma RequestIsRead(x: string, campaign: string, revision: string)
    requires IsSession(x) && IsCampaign(campaign) && IsRevision(revision)
    ensures Settled(Request(x, campaign, revision)) == Some(ReadFrom(campaign, revision))
  {
    RequestIsScanned(x, campaign, revision);
    GivenAreRead(campaign, revision);
  }

  lemma ReadIsApproved(x: string, campaign: string, revision: string, admission: Admission)
    requires IsCampaign(campaign) && IsRevision(revision) && admission.reference(campaign, "r") == Some(CHECKOUT)
    ensures var values := ReadFrom(campaign, revision);
            && WellNamed(values) && OneSelector(values) && HasSelector(values) && APPROVAL in values
            && Approved(values, x, admission) == Some(CHECKOUT)
  {
    var values := ReadFrom(campaign, revision);
    Lengths();
    GivenAreOptions(campaign, revision);
    assert values.Keys == {APPROVAL, CAMPAIGN, REPOSITORY, REVISION, CHECKOUT};
  }

  lemma RequestIsCut(x: string, campaign: string, revision: string)
    requires IsCampaign(campaign)
    ensures RemoveOptions(CHECKOUT_OPTIONS, Request(x, campaign, revision)[1..])
         == Left(APPROVAL, Given(campaign, revision))
  {
    var rest := Arguments(APPROVAL, CHECKOUT, Given(campaign, revision))[2..];
    assert Request(x, campaign, revision)[1..] == [APPROVAL] + ([CHECKOUT, x] + rest);
    CheckoutsTakeOne();
    GivenAreLong(campaign, revision);
    GivenAreOptions(campaign, revision);
    RemovesArguments(CHECKOUT_OPTIONS, APPROVAL, CHECKOUT, x, Given(campaign, revision));
  }

  /** The operator's reference for a pair is `--checkout`. A request that gives it and a checkout is
      accepted. The token that looks like an option goes with the session behind it, and what is authorised
      is the campaign's name if that is session-shaped, and nothing otherwise. */
  lemma CheckoutAsReferenceShiftsSession(x: string, campaign: string, revision: string, host: Host)
    requires IsSession(x) && IsCampaign(campaign) && IsRevision(revision)
    requires host.admission.passes && !IsSession(host.admission.facts)
    requires host.admission.reference(campaign, "r") == Some(CHECKOUT)
    ensures var argv := Request(x, campaign, revision);
            && RequestSession(argv, None) == Some(x) && Translated(argv, host).Some?
            && AuthorizedSession(Translated(argv, host).value)
               == if IsSession(campaign) then Some(campaign) else None
  {
    var argv, table := Request(x, campaign, revision), ValueOptions("scope-grant");
    RequestIsScanned(x, campaign, revision);
    RequestIsRead(x, campaign, revision);
    ReadIsApproved(x, campaign, revision, host.admission);
    SuppliedReferenceForwards(argv, host.admission);
    RequestIsCut(x, campaign, revision);
    ApprovalTakesOne();
    GivenAreLong(campaign, revision);
    FoundInLeft(table, APPROVAL, Given(campaign, revision));
    FoundIsSession(table, Forwarded(argv, host.admission).value[1..], 1);
  }

  /** A session's name can name a campaign. */
  lemma SessionCanNameACampaign(y: string)
    requires IsSession(y)
    ensures IsCampaign(y)
  {
  }

  /** So a request that locks one session is authorised for another. */
  lemma CheckoutAsReferenceAuthorizesAnother(x: string, y: string, revision: string, host: Host)
    requires IsSession(x) && IsSession(y) && x != y && IsRevision(revision)
    requires host.admission.passes && !IsSession(host.admission.facts)
    requires host.admission.reference(y, "r") == Some(CHECKOUT)
    ensures var argv := Request(x, y, revision);
            && RequestSession(argv, None) == Some(x)
            && Translated(argv, host).Some? && AuthorizedSession(Translated(argv, host).value) == Some(y)
  {
    SessionCanNameACampaign(y);
    CheckoutAsReferenceShiftsSession(x, y, revision, host);
  }
}
