/** Which scope admissions are granted, and what is forwarded for them, said of the caller's argv and of the
    owner's grants alone. */
module ScopeMeaning {
  import opened Wrappers
  import opened Argv
  import opened SessionBinding
  import opened Translation
  import opened ScopeGrant

  // ----- what the caller sets ---------------------------------------------------------

  /** One option with its value, in one token or in two. */
  datatype Setting = Joined(option: string, value: string) | Apart(option: string, value: string)

  function Spelled(setting: Setting): seq<string> {
    match setting
    case Joined(option, value) => [option + "=" + value]
    case Apart(option, value) => [option, value]
  }

  function Written(settings: seq<Setting>): seq<string> {
    if settings == [] then [] else Spelled(settings[0]) + Written(settings[1..])
  }

  predicate IsLong(option: string) {
    |option| >= 2 && option[0] == '-' && option[1] == '-' && '=' !in option
  }

  /** Each sets a known option, none twice, to a value that is neither empty nor broken. */
  predicate Proper(names: set<string>, settings: seq<Setting>) {
    && (forall setting <- settings :: setting.option in names && setting.value != "" && '\0' !in setting.value)
    && (forall i, j :: 0 <= i < j < |settings| ==> settings[i].option != settings[j].option)
  }

  /** What they set, over what was set before. */
  function Sum(settings: seq<Setting>, values: Settings): Settings {
    if settings == [] then values else Sum(settings[1..], values[settings[0].option := settings[0].value])
  }

  predicate NoneSet(settings: seq<Setting>, values: Settings) {
    forall setting <- settings :: setting.option !in values
  }

  predicate AllLong(names: set<string>) {
    forall name <- names :: IsLong(name)
  }

  lemma JoinedToken(option: string, value: string)
    requires IsLong(option)
    ensures var token := option + "=" + value;
            IsAssignment(token) && OptionName(token) == option && AssignedValue(token) == value
  {
    var token := option + "=" + value;
    OptionNameOfAssigned(option, value);
    assert token[|option|] == '=' && token[0] == option[0] && token[1] == option[1];
    assert token[|option| + 1..] == value;
  }

  lemma SplitToken(token: string)
    requires IsAssignment(token)
    ensures token == OptionName(token) + "=" + AssignedValue(token)
  {
    OptionNameSplits(token);
    var n := |OptionName(token)|;
    assert token == token[..n] + [token[n]] + token[n + 1..];
  }

  /** Settings that are written are read as what they set. */
  lemma {:induction false} WrittenIsRead(names: set<string>, settings: seq<Setting>, values: Settings)
    requires AllLong(names) && Proper(names, settings) && NoneSet(settings, values)
    ensures ReadOptions(names, Written(settings), values) == Some(Sum(settings, values))
  {
    if settings != [] {
      var first, rest := settings[0], settings[1..];
      var next := values[first.option := first.value];
      assert first in settings && forall setting <- rest :: setting in settings;
      forall setting <- rest ensures setting.option !in next {
        var i :| 0 <= i < |rest| && rest[i] == setting;
        assert settings[i + 1] == setting;
      }
      assert Proper(names, rest);
      WrittenIsRead(names, rest, next);
      FirstIsRead(names, first, Written(rest), values);
    }
  }

  lemma FirstIsRead(names: set<string>, first: Setting, rest: seq<string>, values: Settings)
    requires AllLong(names) && first.option in names && first.option !in values
    requires first.value != "" && '\0' !in first.value
    ensures ReadOptions(names, Spelled(first) + rest, values)
            == ReadOptions(names, rest, values[first.option := first.value])
  {
    var tokens := Spelled(first) + rest;
    assert IsLong(first.option);
    if first.Joined? {
      JoinedToken(first.option, first.value);
      assert tokens[1..] == rest;
    } else {
      assert tokens[2..] == rest;
    }
  }

  /** What is read was written as settings. */
  lemma {:induction false} ReadIsWritten(names: set<string>, tokens: seq<string>, values: Settings)
    returns (settings: seq<Setting>)
    requires AllLong(names) && ReadOptions(names, tokens, values).Some?
    ensures tokens == Written(settings) && Proper(names, settings) && NoneSet(settings, values)
    decreases |tokens|
  {
    settings := [];
    if tokens != [] {
      var first, rest: seq<string>;
      if IsAssignment(tokens[0]) {
        SplitToken(tokens[0]);
        first, rest := Joined(OptionName(tokens[0]), AssignedValue(tokens[0])), tokens[1..];
      } else {
        first, rest := Apart(tokens[0], tokens[1]), tokens[2..];
      }
      assert tokens == Spelled(first) + rest;
      var next := values[first.option := first.value];
      var more := ReadIsWritten(names, rest, next);
      settings := [first] + more;
      assert settings[1..] == more;
      forall j | 0 < j < |settings| ensures settings[j].option != first.option && settings[j].option !in values {
        assert settings[j] in more;
      }
    }
  }

  lemma LongCheckouts()
    ensures AllLong(CHECKOUT_OPTIONS)
  {
  }

  lemma LongRequired()
    ensures AllLong(REQUIRED_OPTIONS) && IsLong(APPROVAL)
  {
  }

  lemma LongOptions()
    ensures AllLong(GRANT_OPTIONS)
  {
    LongCheckouts();
    LongRequired();
  }

  /** The option loop accepts tokens, as what they set, exactly if they are written from proper settings. */
  lemma ReadExactly(tokens: seq<string>, values: Settings)
    ensures ReadOptions(GRANT_OPTIONS, tokens, map[]) == Some(values) <==>
              exists settings :: tokens == Written(settings) && Proper(GRANT_OPTIONS, settings)
                                 && values == Sum(settings, map[])
  {
    LongOptions();
    if ReadOptions(GRANT_OPTIONS, tokens, map[]).Some? {
      var settings := ReadIsWritten(GRANT_OPTIONS, tokens, map[]);
      WrittenIsRead(GRANT_OPTIONS, settings, map[]);
    }
    if settings :| tokens == Written(settings) && Proper(GRANT_OPTIONS, settings) && values == Sum(settings, map[]) {
      WrittenIsRead(GRANT_OPTIONS, settings, map[]);
    }
  }

  // ----- what is asked of the values ------------------------------------------------------

  predicate IsAlphanumeric(c: char) {
    48 <= c as int <= 57 || 65 <= c as int <= 90 || 97 <= c as int <= 122
  }

  /** A letter or digit first, then letters, digits and the marks, of at most `maximum` characters. */
  predicate IsIdentity(value: string, maximum: nat, marks: string) {
    && 0 < |value| <= maximum && IsAlphanumeric(value[0])
    && forall c <- value :: IsAlphanumeric(c) || c in marks
  }

  /** 64 lower-case hexadecimal digits. */
  predicate IsDigest(value: string) {
    |value| == 64 && forall c <- value :: 48 <= c as int <= 57 || 97 <= c as int <= 102
  }

  lemma NamesExactly(value: string, more: nat, extra: set<char>, marks: string)
    requires forall c :: c in extra <==> c in marks
    ensures IsName(value, more, extra) <==> IsIdentity(value, more + 1, marks)
  {
    if value != "" {
      assert value[0] in value;
      assert forall k :: 0 <= k < |value| ==> value[k] in value;
    }
  }

  lemma RevisionsExactly(value: string)
    ensures IsRevision(value) <==> IsDigest(value)
  {
    assert forall k :: 0 <= k < |value| ==> value[k] in value;
  }

  /** The settings name a repository, a campaign and an authority revision. */
  predicate Names(values: Settings) {
    && "--repository" in values && IsIdentity(values["--repository"], 120, "._-")
    && "--campaign-id" in values && IsIdentity(values["--campaign-id"], 160, "._:-")
    && "--expected-authority-revision" in values && IsDigest(values["--expected-authority-revision"])
  }

  lemma WellNamedExactly(values: Settings)
    ensures WellNamed(values) <==> Names(values)
  {
    if REQUIRED_OPTIONS <= values.Keys {
      NamesExactly(values[REPOSITORY], 119, {'.', '_', '-'}, "._-");
      NamesExactly(values[CAMPAIGN], 159, {'.', '_', ':', '-'}, "._:-");
      RevisionsExactly(values[REVISION]);
    }
  }

  // ----- the approval -----------------------------------------------------------------------

  predicate SelectsCheckout(values: Settings) {
    "--checkout" in values || "--workspace-checkout" in values || "--owner-authorized-checkout-json" in values
  }

  predicate SelectsTwo(values: Settings) {
    || ("--checkout" in values && "--workspace-checkout" in values)
    || ("--checkout" in values && "--owner-authorized-checkout-json" in values)
    || ("--workspace-checkout" in values && "--owner-authorized-checkout-json" in values)
  }

  /** The admission stands under the reference: the owner's for the pair of campaign and repository; or, where
      the owner has none, the marker of a checkout of the caller's own repository for this very session. A
      reference that the caller supplies is that one. */
  predicate StandsUnder(values: Settings, session: string, admission: Admission, reference: string)
    requires Names(values)
  {
    var campaign, repository := values["--campaign-id"], values["--repository"];
    && ("--approval-reference" in values ==> values["--approval-reference"] == reference)
    && match admission.reference(campaign, repository)
       case Some(owner) => reference == owner
       case None =>
         && repository == admission.caller && SelectsCheckout(values)
         && reference == "campaign-writable-checkout:" + campaign + ":" + repository + ":" + session
  }

  lemma SelectorsExactly(values: Settings)
    ensures HasSelector(values) <==> SelectsCheckout(values)
    ensures OneSelector(values) <==> !SelectsTwo(values)
  {
    assert "--checkout" in CHECKOUT_OPTIONS && "--workspace-checkout" in CHECKOUT_OPTIONS;
    assert OWNER_CHECKOUT in CHECKOUT_OPTIONS;
    assert "--checkout"[2] == 'c' && "--workspace-checkout"[2] == 'w' && OWNER_CHECKOUT[2] == 'o';
  }

  lemma ApprovedExactly(values: Settings, session: string, admission: Admission, reference: string)
    requires WellNamed(values) && Names(values)
    ensures Approved(values, session, admission) == Some(reference) <==>
              StandsUnder(values, session, admission, reference)
  {
    SelectorsExactly(values);
  }

  // ----- the admission ------------------------------------------------------------------------

  /** What is added to the argv: the reference unless it was supplied, the verified facts of a selected
      checkout, and the mark of a binding that the owner's grants do not cover. */
  function Added(values: Settings, admission: Admission, reference: string): seq<string>
    requires Names(values)
  {
    (if "--approval-reference" in values then [] else ["--approval-reference", reference])
    + (if SelectsCheckout(values) then ["--owner-authorized-checkout-json", admission.facts] else [])
    + (if admission.reference(values["--campaign-id"], values["--repository"]).None?
       then ["--campaign-writable-checkout"] else [])
  }

  lemma AppendixIsAdded(values: Settings, admission: Admission, reference: string)
    requires WellNamed(values) && Names(values)
    ensures Render(Appendix(values, reference, admission), []) == Added(values, admission, reference)
  {
    SelectorsExactly(values);
    var approval := if APPROVAL in values then None else Some((APPROVAL, reference));
    var checkout := if HasSelector(values) then Some((OWNER_CHECKOUT, admission.facts)) else None;
    var flag := if admission.reference(values[CAMPAIGN], values[REPOSITORY]).None? then Some(CAMPAIGN_FLAG) else None;
    AppendedTokens(approval, checkout, flag);
  }


  lemma RenderFirst(piece: Piece, rest: seq<Piece>)
    ensures Render([piece] + rest, []) == Tokens(piece) + Render(rest, [])
  {
    assert ([piece] + rest)[1..] == rest;
  }

  lemma AppendedTokens(
      approval: Option<(string, string)>, checkout: Option<(string, string)>, flag: Option<string>)
    ensures Render(Appended(approval, checkout, flag), []) ==
              (if approval.Some? then [approval.value.0, approval.value.1] else [])
              + (if checkout.Some? then [checkout.value.0, checkout.value.1] else [])
              + (if flag.Some? then [flag.value] else [])
  {
    var last := Appended(None, None, flag);
    assert [] + last == last;
    if flag.Some? {
      assert last == [Flag(flag.value)] + [];
      RenderFirst(Flag(flag.value), []);
    }
    assert Render(last, []) == if flag.Some? then [flag.value] else [];
    var later := Appended(None, checkout, flag);
    if checkout.Some? {
      assert later == [Fixed(checkout.value.0, [checkout.value.1])] + last;
      RenderFirst(Fixed(checkout.value.0, [checkout.value.1]), last);
    } else {
      assert later == last;
    }
    if approval.Some? {
      assert Appended(approval, checkout, flag) == [Fixed(approval.value.0, [approval.value.1])] + later;
      RenderFirst(Fixed(approval.value.0, [approval.value.1]), later);
    } else {
      assert Appended(approval, checkout, flag) == later;
    }
  }

  /** The argv asks for an admission of the session with these settings: the first session-shaped positional
      names it, and all other tokens after the command are the settings, in order. */
  predicate AsksFor(argv: seq<string>, session: string, settings: seq<Setting>) {
    && argv != []
    && var found := SessionArgument(ValueOptions("scope-grant"), argv);
    && found.Some? && found.value.1 == session && 1 <= found.value.0 < |argv|
    && argv[1..][..found.value.0 - 1] + argv[1..][found.value.0..] == Written(settings)
  }

  /** The admission is granted and the argv becomes `after`. */
  ghost predicate IsGranted(argv: seq<string>, admission: Admission, after: seq<string>) {
    exists session, settings, reference ::
      GrantedFor(argv, admission, after, session, settings, reference)
  }

  predicate GrantedFor(
      argv: seq<string>, admission: Admission, after: seq<string>,
      session: string, settings: seq<Setting>, reference: string)
  {
    && AsksFor(argv, session, settings) && Proper(GRANT_OPTIONS, settings) && admission.passes
    && var values := Sum(settings, map[]);
    && Names(values) && !SelectsTwo(values) && StandsUnder(values, session, admission, reference)
    && after == (if SelectsCheckout(values) then RemoveOptions(CHECKOUT_OPTIONS, argv) else argv)
                + Added(values, admission, reference)
  }

  lemma GrantIsForwarded(
      argv: seq<string>, admission: Admission, after: seq<string>,
      session: string, settings: seq<Setting>, reference: string)
    requires GrantedFor(argv, admission, after, session, settings, reference)
    ensures Forwarded(argv, admission) == Some(after)
  {
    var values := Sum(settings, map[]);
    LongOptions();
    WrittenIsRead(GRANT_OPTIONS, settings, map[]);
    WellNamedExactly(values);
    SelectorsExactly(values);
    ApprovedExactly(values, session, admission, reference);
    AppendixIsAdded(values, admission, reference);
  }

  lemma ForwardedIsGranted(argv: seq<string>, admission: Admission)
    requires argv != [] && Forwarded(argv, admission).Some?
    ensures IsGranted(argv, admission, Forwarded(argv, admission).value)
  {
    var values := Settled(argv).value;
    var found := SessionArgument(ValueOptions("scope-grant"), argv).value;
    LongOptions();
    var settings := ReadIsWritten(GRANT_OPTIONS, Without(argv[1..], found.0 - 1), map[]);
    WrittenIsRead(GRANT_OPTIONS, settings, map[]);
    WellNamedExactly(values);
    SelectorsExactly(values);
    var reference := Approved(values, found.1, admission).value;
    ApprovedExactly(values, found.1, admission, reference);
    AppendixIsAdded(values, admission, reference);
    assert GrantedFor(argv, admission, Forwarded(argv, admission).value, found.1, settings, reference);
  }

  /** Scope admission grants a request, and forwards it as `after`, exactly if its argv names one session and
      nothing but proper settings, they name repository, campaign and revision and at most one checkout,
      every check that is not of argv passes, and the admission stands under a reference. */
  lemma GrantedExactly(argv: seq<string>, admission: Admission, after: seq<string>)
    requires argv != []
    ensures Forwarded(argv, admission) == Some(after) <==> IsGranted(argv, admission, after)
  {
    if Forwarded(argv, admission) == Some(after) {
      ForwardedIsGranted(argv, admission);
    }
    if session, settings, reference :| GrantedFor(argv, admission, after, session, settings, reference) {
      GrantIsForwarded(argv, admission, after, session, settings, reference);
    }
  }
}
