/** Scope admission: which arguments it accepts and what it forwards
    (`_authorize_scope_grant_argv`). */
module ScopeGrant {
  import opened Wrappers
  import opened Argv
  import opened SessionBinding
  import opened Translation

  // ----- the arguments of scope-grant --------------------------------------

  const CHECKOUT_OPTIONS := {"--checkout", "--workspace-checkout", "--owner-authorized-checkout-json"}

  const CAMPAIGN := "--campaign-id"
  const REPOSITORY := "--repository"
  const REVISION := "--expected-authority-revision"
  const APPROVAL := "--approval-reference"
  const OWNER_CHECKOUT := "--owner-authorized-checkout-json"
  const CAMPAIGN_FLAG := "--campaign-writable-checkout"

  const REQUIRED_OPTIONS := {CAMPAIGN, REPOSITORY, REVISION}
  const GRANT_OPTIONS := REQUIRED_OPTIONS + {APPROVAL} + CHECKOUT_OPTIONS

  type Settings = map<string, string>

  /** `--option=value` in one token. */
  predicate IsAssignment(token: string) {
    |token| >= 2 && token[0] == '-' && token[1] == '-' && '=' in token
  }

  /** What stands after the first `=`. */
  function AssignedValue(token: string): string {
    if |OptionName(token)| < |token| then token[|OptionName(token)| + 1..] else ""
  }

  predicate Acceptable(names: set<string>, values: Settings, option: string, value: string) {
    option in names && option !in values && value != "" && '\0' !in value
  }

  /** The options of scope admission with their values; None if one is unknown, repeated, empty or
      without a value, or if anything else stands there. */
  function ReadOptions(names: set<string>, tokens: seq<string>, values: Settings): Option<Settings>
    decreases |tokens|
  {
    if tokens == [] then Some(values)
    else if IsAssignment(tokens[0]) then
      var option, value := OptionName(tokens[0]), AssignedValue(tokens[0]);
      if Acceptable(names, values, option, value)
      then ReadOptions(names, tokens[1..], values[option := value]) else None
    else if tokens[0] in names && |tokens| > 1 then
      if Acceptable(names, values, tokens[0], tokens[1])
      then ReadOptions(names, tokens[2..], values[tokens[0] := tokens[1]]) else None
    else None
  }

  /** The index loop of `_authorize_scope_grant_argv` over its normalised argv, command and session
      in front. */
  method ReadOptionsLoop(names: set<string>, normalized: seq<string>) returns (result: Option<Settings>)
    requires |normalized| >= 2
    ensures result == ReadOptions(names, normalized[2..], map[])
  {
    var values: Settings := map[];
    var index := 2;
    while index < |normalized|
      invariant 2 <= index <= |normalized|
      invariant ReadOptions(names, normalized[index..], values) == ReadOptions(names, normalized[2..], map[])
    {
      var item := normalized[index];
      var option, value := item, "";
      ghost var todo := normalized[index..];
      assert todo[0] == item && todo[1..] == normalized[index + 1..];
      if IsAssignment(item) {
        option, value := OptionName(item), AssignedValue(item);
      } else if item in names && index + 1 < |normalized| {
        assert todo[1] == normalized[index + 1] && todo[2..] == normalized[index + 2..];
        value := normalized[index + 1];
        index := index + 1;
      } else {
        return None;
      }
      if !Acceptable(names, values, option, value) {
        return None;
      }
      values := values[option := value];
      index := index + 1;
    }
    result := Some(values);
  }

  /** A piece that sets one of the named options to its value. */
  predicate Sets(names: set<string>, values: Settings, piece: Piece) {
    match piece
    case Assigned(option, value) => option in names && option in values && values[option] == value
    case Fixed(option, given) =>
      option in names && option in values && |given| == 1 && values[option] == given[0]
    case _ => false
  }

  /** Nothing but the named options, each complete, and positionals. */
  predicate ReadsAs(table: Table, names: set<string>, values: Settings, tokens: seq<string>) {
    var (pieces, ending) := Parse(table, tokens);
    && ending == [] && Complete(table, pieces)
    && forall piece <- pieces :: piece.Positional? || Sets(names, values, piece)
  }

  predicate AllTakeOne(table: Table, names: set<string>) {
    forall name <- names :: IsOptionName(name) && name in table && table[name] == Exactly(1)
  }

  lemma {:induction false} ReadExtends(names: set<string>, tokens: seq<string>, values: Settings)
    requires ReadOptions(names, tokens, values).Some?
    ensures forall o <- values :: o in ReadOptions(names, tokens, values).value
                                  && ReadOptions(names, tokens, values).value[o] == values[o]
    decreases |tokens|
  {
    if tokens != [] {
      if IsAssignment(tokens[0]) {
        ReadExtends(names, tokens[1..], values[OptionName(tokens[0]) := AssignedValue(tokens[0])]);
      } else {
        ReadExtends(names, tokens[2..], values[tokens[0] := tokens[1]]);
      }
    }
  }

  lemma ReadsAsCons(
      table: Table, names: set<string>, values: Settings, tokens: seq<string>, piece: Piece, rest: seq<string>)
    requires ReadsAs(table, names, values, rest)
    requires Parse(table, tokens) == ([piece] + Parse(table, rest).0, Parse(table, rest).1)
    requires Fits(table, piece, false) && !piece.Group? && (piece.Positional? || Sets(names, values, piece))
    ensures ReadsAs(table, names, values, tokens)
  {
  }

  /** One token that assigns an option of the table is one piece. */
  lemma AssignmentParses(table: Table, tokens: seq<string>)
    requires tokens != [] && IsAssignment(tokens[0])
    requires IsOptionName(OptionName(tokens[0])) && OptionName(tokens[0]) in table
    ensures var piece := Assigned(OptionName(tokens[0]), AssignedValue(tokens[0]));
            && Parse(table, tokens) == ([piece] + Parse(table, tokens[1..]).0, Parse(table, tokens[1..]).1)
            && Dashed(tokens[0]) && !IsTerminator(tokens[0]) && OptionWidth(table, tokens) == 1
            && Fits(table, piece, false)
  {
    OptionNameSplits(tokens[0]);
    assert Skip(tokens, 1) == tokens[1..];
  }

  lemma PairParses(table: Table, tokens: seq<string>)
    requires |tokens| > 1 && IsOptionName(tokens[0]) && tokens[0] in table && table[tokens[0]] == Exactly(1)
    ensures var piece := Fixed(tokens[0], [tokens[1]]);
            && Parse(table, tokens) == ([piece] + Parse(table, tokens[2..]).0, Parse(table, tokens[2..]).1)
            && Dashed(tokens[0]) && !IsTerminator(tokens[0]) && OptionWidth(table, tokens) == 2
            && Fits(table, piece, false)
  {
    OptionNameWithoutEquals(tokens[0]);
    assert tokens[1..2] == [tokens[1]];
  }

  /** Where the loop accepts, the scanner reads the same options with the same values. */
  lemma {:induction false} AcceptedReads(table: Table, names: set<string>, tokens: seq<string>, values: Settings)
    requires AllTakeOne(table, names) && ReadOptions(names, tokens, values).Some?
    ensures ReadsAs(table, names, ReadOptions(names, tokens, values).value, tokens)
    decreases |tokens|
  {
    if tokens != [] {
      var all := ReadOptions(names, tokens, values).value;
      if IsAssignment(tokens[0]) {
        var option, value := OptionName(tokens[0]), AssignedValue(tokens[0]);
        AcceptedReads(table, names, tokens[1..], values[option := value]);
        ReadExtends(names, tokens[1..], values[option := value]);
        AssignmentParses(table, tokens);
        ReadsAsCons(table, names, all, tokens, Assigned(option, value), tokens[1..]);
      } else {
        AcceptedReads(table, names, tokens[2..], values[tokens[0] := tokens[1]]);
        ReadExtends(names, tokens[2..], values[tokens[0] := tokens[1]]);
        PairParses(table, tokens);
        ReadsAsCons(table, names, all, tokens, Fixed(tokens[0], [tokens[1]]), tokens[2..]);
      }
    }
  }

  /** The positional stands at its index. */
  predicate IsIndexed(tokens: seq<string>, at: nat, p: (nat, string)) {
    at <= p.0 < at + |tokens| && tokens[p.0 - at] == p.1
  }

  lemma IndexedLater(tokens: seq<string>, at: nat, w: nat, p: (nat, string))
    requires w <= |tokens| && IsIndexed(tokens[w..], at + w, p)
    ensures IsIndexed(tokens, at, p)
  {
  }

  lemma {:induction false} IndicesAfterOption(table: Table, tokens: seq<string>, at: nat, p: (nat, string))
    requires tokens != [] && Dashed(tokens[0]) && !IsTerminator(tokens[0]) && p in Scan(table, tokens, at)
    ensures IsIndexed(tokens, at, p)
    decreases |tokens|, 0
  {
    var w := OptionWidth(table, tokens);
    if w < |tokens| {
      ScanIndices(table, tokens[w..], at + w, p);
      IndexedLater(tokens, at, w, p);
    }
  }

  lemma {:induction false} IndicesAfterWord(table: Table, tokens: seq<string>, at: nat, p: (nat, string))
    requires tokens != [] && !Dashed(tokens[0]) && p in Scan(table, tokens, at)
    ensures IsIndexed(tokens, at, p)
    decreases |tokens|, 0
  {
    if p != (at, tokens[0]) {
      ScanIndices(table, tokens[1..], at + 1, p);
      IndexedLater(tokens, at, 1, p);
    }
  }

  lemma {:induction false} ScanIndices(table: Table, tokens: seq<string>, at: nat, p: (nat, string))
    requires p in Scan(table, tokens, at)
    ensures IsIndexed(tokens, at, p)
    decreases |tokens|, 1
  {
    if IsTerminator(tokens[0]) {
      EnumerateIndices(tokens[1..], at + 1, p);
      IndexedLater(tokens, at, 1, p);
    } else if Dashed(tokens[0]) {
      IndicesAfterOption(table, tokens, at, p);
    } else {
      IndicesAfterWord(table, tokens, at, p);
    }
  }

  lemma {:induction false} EnumerateIndices(tokens: seq<string>, at: nat, p: (nat, string))
    requires p in Enumerate(tokens, at)
    ensures IsIndexed(tokens, at, p)
  {
    if p != (at, tokens[0]) {
      EnumerateIndices(tokens[1..], at + 1, p);
    }
  }

  /** The tokens without the k-th. */
  function Without(tokens: seq<string>, k: nat): seq<string>
    requires k < |tokens|
  {
    tokens[..k] + tokens[k + 1..]
  }

  lemma WithoutLater(tokens: seq<string>, k: nat, w: nat)
    requires w <= k < |tokens|
    ensures Without(tokens, k) == tokens[..w] + Without(tokens[w..], k - w)
    ensures Without(tokens, k)[w..] == Without(tokens[w..], k - w)
    ensures forall i :: 0 <= i < w ==> Without(tokens, k)[i] == tokens[i]
  {
    assert tokens[..k] == tokens[..w] + tokens[w..][..k - w];
  }

  /** The scanner finds the session at the k-th token. */
  predicate SessionIsAt(table: Table, tokens: seq<string>, at: nat, k: nat) {
    k < |tokens| && FirstSession(Scan(table, tokens, at)) == Some((at + k, tokens[k]))
  }

  lemma SessionHasIndex(table: Table, tokens: seq<string>, at: nat)
    requires FirstSession(Scan(table, tokens, at)).Some?
    ensures var p := FirstSession(Scan(table, tokens, at)).value.0; at <= p && SessionIsAt(table, tokens, at, p - at)
  {
    ScanIndices(table, tokens, at, FirstSession(Scan(table, tokens, at)).value);
  }

  lemma SessionAfterAssignment(table: Table, tokens: seq<string>, at: nat, k: nat)
    requires k > 0 && SessionIsAt(table, tokens, at, k) && IsAssignment(tokens[0])
    requires IsOptionName(OptionName(tokens[0])) && OptionName(tokens[0]) in table
    ensures SessionIsAt(table, tokens[1..], at + 1, k - 1)
  {
    AssignmentParses(table, tokens);
    assert Skip(tokens, 1) == tokens[1..];
  }

  lemma SessionAfterPair(table: Table, tokens: seq<string>, at: nat, k: nat)
    requires k > 0 && SessionIsAt(table, tokens, at, k) && |tokens| > 1
    requires IsOptionName(tokens[0]) && tokens[0] in table && table[tokens[0]] == Exactly(1)
    ensures k > 1 && SessionIsAt(table, tokens[2..], at + 2, k - 2)
  {
    PairParses(table, tokens);
    assert Skip(tokens, 2) == tokens[2..];
    SessionHasIndex(table, tokens[2..], at + 2);
  }

  /** Also with the session that the scanner has found among them. */
  lemma {:induction false} AcceptedReadsSession(
      table: Table, names: set<string>, tokens: seq<string>, at: nat, k: nat, values: Settings)
    requires AllTakeOne(table, names) && SessionIsAt(table, tokens, at, k)
    requires ReadOptions(names, Without(tokens, k), values).Some?
    ensures ReadsAs(table, names, ReadOptions(names, Without(tokens, k), values).value, tokens)
    decreases |tokens|
  {
    if k == 0 {
      assert Without(tokens, 0) == tokens[1..];
      AtSession(table, tokens, at);
      AcceptedReads(table, names, tokens[1..], values);
      var all := ReadOptions(names, tokens[1..], values).value;
      ReadsAsCons(table, names, all, tokens, Positional(tokens[0]), tokens[1..]);
    } else {
      WithoutLater(tokens, k, 1);
      if IsAssignment(tokens[0]) {
        AcceptedAssignment(table, names, tokens, at, k, values);
      } else {
        AcceptedPair(table, names, tokens, at, k, values);
      }
    }
  }

  lemma {:induction false} AcceptedAssignment(
      table: Table, names: set<string>, tokens: seq<string>, at: nat, k: nat, values: Settings)
    requires AllTakeOne(table, names) && k > 0 && SessionIsAt(table, tokens, at, k) && IsAssignment(tokens[0])
    requires ReadOptions(names, Without(tokens, k), values).Some?
    ensures ReadsAs(table, names, ReadOptions(names, Without(tokens, k), values).value, tokens)
    decreases |tokens|, 0
  {
    var option, value := OptionName(tokens[0]), AssignedValue(tokens[0]);
    var rest := Without(tokens, k);
    WithoutLater(tokens, k, 1);
    assert rest[0] == tokens[0];
    SessionAfterAssignment(table, tokens, at, k);
    ReadExtends(names, rest[1..], values[option := value]);
    AcceptedReadsSession(table, names, tokens[1..], at + 1, k - 1, values[option := value]);
    AssignmentParses(table, tokens);
    ReadsAsCons(table, names, ReadOptions(names, rest, values).value, tokens, Assigned(option, value), tokens[1..]);
  }

  lemma PairInFront(tokens: seq<string>, k: nat)
    requires 1 < k < |tokens|
    ensures var rest := Without(tokens, k);
            |rest| > 1 && rest[0] == tokens[0] && rest[1] == tokens[1] && rest[2..] == Without(tokens[2..], k - 2)
  {
    WithoutLater(tokens, k, 2);
  }

  lemma {:induction false} AcceptedPair(
      table: Table, names: set<string>, tokens: seq<string>, at: nat, k: nat, values: Settings)
    requires AllTakeOne(table, names) && k > 0 && SessionIsAt(table, tokens, at, k) && !IsAssignment(tokens[0])
    requires ReadOptions(names, Without(tokens, k), values).Some?
    ensures ReadsAs(table, names, ReadOptions(names, Without(tokens, k), values).value, tokens)
    decreases |tokens|, 0
  {
    var rest, more := Without(tokens, k), values[tokens[0] := tokens[1]];
    WithoutLater(tokens, k, 1);
    assert rest[0] == tokens[0] && tokens[0] in names;
    SessionAfterPair(table, tokens, at, k);
    PairInFront(tokens, k);
    AcceptedReadsSession(table, names, tokens[2..], at + 2, k - 2, more);
    ReadExtends(names, rest[2..], more);
    PairReads(table, names, tokens, ReadOptions(names, rest, values).value);
  }

  lemma PairReads(table: Table, names: set<string>, tokens: seq<string>, all: Settings)
    requires AllTakeOne(table, names) && |tokens| > 1 && tokens[0] in names
    requires tokens[0] in all && all[tokens[0]] == tokens[1] && ReadsAs(table, names, all, tokens[2..])
    ensures ReadsAs(table, names, all, tokens)
  {
    PairParses(table, tokens);
    ReadsAsCons(table, names, all, tokens, Fixed(tokens[0], [tokens[1]]), tokens[2..]);
  }

  /** A session found in first place is a positional there, whatever follows. */
  lemma AtSession(table: Table, tokens: seq<string>, at: nat)
    requires tokens != [] && IsSession(tokens[0])
    ensures Parse(table, tokens)
         == ([Positional(tokens[0])] + Parse(table, tokens[1..]).0, Parse(table, tokens[1..]).1)
  {
  }

  // ----- what scope admission forwards --------------------------------------

  predicate IsNameChar(c: char, extra: set<char>) {
    'A' <= c <= 'Z' || 'a' <= c <= 'z' || '0' <= c <= '9' || c in extra
  }

  /** A letter or digit, then at most `more` letters, digits or extra characters. */
  predicate IsName(value: string, more: nat, extra: set<char>) {
    && 1 <= |value| <= 1 + more && IsNameChar(value[0], {})
    && forall k :: 1 <= k < |value| ==> IsNameChar(value[k], extra)
  }

  predicate IsRevision(value: string) {
    |value| == 64 && forall k :: 0 <= k < |value| ==> '0' <= value[k] <= '9' || 'a' <= value[k] <= 'f'
  }

  /** The owner's configured references, the repository of the calling grant, the verified checkout
      facts as text, and whether every check that is not of argv passes. */
  datatype Admission = Admission(
    reference: (string, string) -> Option<string>, caller: string, facts: string, passes: bool)

  /** The marker of a checkout binding, which needs no owner's approval. */
  function Binding(campaign: string, repository: string, session: string): string {
    "campaign-writable-checkout:" + campaign + ":" + repository + ":" + session
  }

  predicate HasSelector(values: Settings) {
    exists name <- CHECKOUT_OPTIONS :: name in values
  }

  predicate OneSelector(values: Settings) {
    forall a <- CHECKOUT_OPTIONS, b <- CHECKOUT_OPTIONS :: a in values && b in values ==> a == b
  }

  /** The three required options are there, and their values have the form of what they name. */
  predicate WellNamed(values: Settings) {
    && REQUIRED_OPTIONS <= values.Keys
    && CAMPAIGN in values && REPOSITORY in values && REVISION in values
    && IsName(values[REPOSITORY], 119, {'.', '_', '-'})
    && IsName(values[CAMPAIGN], 159, {'.', '_', ':', '-'})
    && IsRevision(values[REVISION])
  }

  /** The reference under which the pair is admitted, if it is: the owner's, or for a checkout of the
      caller's own repository the marker. A supplied one must be that. */
  function Approved(values: Settings, session: string, admission: Admission): Option<string>
    requires WellNamed(values)
  {
    var owner := admission.reference(values[CAMPAIGN], values[REPOSITORY]);
    var reference := if owner.Some? then owner.value else Binding(values[CAMPAIGN], values[REPOSITORY], session);
    if APPROVAL in values && values[APPROVAL] != reference then None
    else if owner.None? && (values[REPOSITORY] != admission.caller || !HasSelector(values)) then None
    else Some(reference)
  }

  /** The options that scope admission appends to the forwarded argv. */
  function Appended(
      approval: Option<(string, string)>, checkout: Option<(string, string)>, flag: Option<string>): (r: seq<Piece>)
    ensures forall piece <- r ::
              || (approval.Some? && piece == Fixed(approval.value.0, [approval.value.1]))
              || (checkout.Some? && piece == Fixed(checkout.value.0, [checkout.value.1]))
              || (flag.Some? && piece == Flag(flag.value))
  {
    (if approval.Some? then [Fixed(approval.value.0, [approval.value.1])] else [])
    + (if checkout.Some? then [Fixed(checkout.value.0, [checkout.value.1])] else [])
    + (if flag.Some? then [Flag(flag.value)] else [])
  }

  /** The reference if none was supplied, the facts if a checkout was selected, and the mark of a
      binding without an owner's reference. */
  function Appendix(values: Settings, reference: string, admission: Admission): seq<Piece>
    requires WellNamed(values)
  {
    Appended(if APPROVAL in values then None else Some((APPROVAL, reference)),
             if HasSelector(values) then Some((OWNER_CHECKOUT, admission.facts)) else None,
             if admission.reference(values[CAMPAIGN], values[REPOSITORY]).None? then Some(CAMPAIGN_FLAG) else None)
  }

  /** What the caller's argv sets, if the option loop accepts it. */
  function Settled(argv: seq<string>): Option<Settings>
    requires argv != []
  {
    var selected := SessionArgument(ValueOptions("scope-grant"), argv);
    if selected.None? || !(1 <= selected.value.0 < |argv|) then None
    else ReadOptions(GRANT_OPTIONS, Without(argv[1..], selected.value.0 - 1), map[])
  }

  /** `_authorize_scope_grant_argv`: the argv after it, or None if it refuses. */
  function Forwarded(argv: seq<string>, admission: Admission): Option<seq<string>>
    requires argv != []
  {
    var read := Settled(argv);
    if read.None? || !WellNamed(read.value) || !OneSelector(read.value) || !admission.passes then None
    else
      var values := read.value;
      var session := SessionArgument(ValueOptions("scope-grant"), argv).value.1;
      var approved := Approved(values, session, admission);
      if approved.None? then None
      else
        Some((if HasSelector(values) then RemoveOptions(CHECKOUT_OPTIONS, argv) else argv)
             + Render(Appendix(values, approved.value, admission), []))
  }

  /** A reference that the caller supplies spells no checkout option. */
  predicate ReferenceIsPlain(values: Settings) {
    APPROVAL in values ==> forall name <- CHECKOUT_OPTIONS :: !Resembles(values[APPROVAL], name)
  }

  lemma CheckoutsTakeOne()
    ensures AllTakeOne(ValueOptions("scope-grant"), CHECKOUT_OPTIONS)
  {
  }

  lemma RequiredTakeOne()
    ensures AllTakeOne(ValueOptions("scope-grant"), REQUIRED_OPTIONS)
  {
  }

  lemma ApprovalTakesOne()
    ensures AllTakeOne(ValueOptions("scope-grant"), {APPROVAL})
  {
  }

  lemma GrantOptionsTakeOne()
    ensures AllTakeOne(ValueOptions("scope-grant"), GRANT_OPTIONS)
  {
    CheckoutsTakeOne();
    RequiredTakeOne();
    ApprovalTakesOne();
  }

  lemma CampaignFlagIsForeign()
    ensures IsOptionName(CAMPAIGN_FLAG) && CAMPAIGN_FLAG !in ValueOptions("scope-grant")
  {
  }

  lemma PlainFlagFits(table: Table, flag: string)
    requires IsOptionName(flag) && flag !in table
    ensures Fits(table, Flag(flag), false)
  {
    OptionNameWithoutEquals(flag);
  }

  /** No value that is forwarded spells a checkout option. */
  lemma KeptValuesArePlain(values: Settings, option: string, name: string)
    requires WellNamed(values) && ReferenceIsPlain(values) && name in CHECKOUT_OPTIONS
    requires option in GRANT_OPTIONS && option in values && option !in CHECKOUT_OPTIONS
    ensures !Resembles(values[option], name)
  {
    if option != APPROVAL {
      assert option in REQUIRED_OPTIONS;
      CheckoutsTakeOne();
      assert !Dashed(values[CAMPAIGN]) && !Dashed(values[REPOSITORY]) && !Dashed(values[REVISION]);
      ResemblingIsDashed(values[option], name);
    }
  }

  lemma PiecesAreClear(values: Settings, piece: Piece)
    requires WellNamed(values) && ReferenceIsPlain(values)
    requires piece.Positional? || Sets(GRANT_OPTIONS, values, piece)
    ensures Clear(CHECKOUT_OPTIONS, piece)
  {
    if !IsDropped(CHECKOUT_OPTIONS, piece) && piece.Fixed? {
      forall name <- CHECKOUT_OPTIONS ensures PieceApart(name, piece) {
        KeptValuesArePlain(values, piece.option, name);
      }
    }
  }

  lemma {:induction false} NoPositionals(pieces: seq<Piece>)
    requires forall piece <- pieces :: !piece.Positional?
    ensures PositionalValues(pieces) == []
  {
    if pieces != [] {
      assert pieces[0] in pieces;
      NoPositionals(pieces[1..]);
    }
  }

  lemma AppendedIsComplete(
      table: Table, approval: Option<(string, string)>, checkout: Option<(string, string)>, flag: Option<string>)
    requires approval.Some? ==> AllTakeOne(table, {approval.value.0})
    requires checkout.Some? ==> AllTakeOne(table, {checkout.value.0})
    requires flag.Some? ==> Fits(table, Flag(flag.value), false)
    ensures var appended := Appended(approval, checkout, flag);
            Complete(table, appended) && PositionalValues(appended) == []
  {
    assert approval.Some? ==> approval.value.0 in {approval.value.0};
    assert checkout.Some? ==> checkout.value.0 in {checkout.value.0};
    NoPositionals(Appended(approval, checkout, flag));
  }

  lemma AppendixIsComplete(values: Settings, reference: string, admission: Admission)
    requires WellNamed(values)
    ensures var appended := Appendix(values, reference, admission);
            Complete(ValueOptions("scope-grant"), appended) && PositionalValues(appended) == []
  {
    var table := ValueOptions("scope-grant");
    ApprovalTakesOne();
    CheckoutsTakeOne();
    assert OWNER_CHECKOUT in CHECKOUT_OPTIONS;
    CampaignFlagIsForeign();
    PlainFlagFits(table, CAMPAIGN_FLAG);
    AppendedIsComplete(
      table,
      if APPROVAL in values then None else Some((APPROVAL, reference)),
      if HasSelector(values) then Some((OWNER_CHECKOUT, admission.facts)) else None,
      if admission.reference(values[CAMPAIGN], values[REPOSITORY]).None? then Some(CAMPAIGN_FLAG) else None);
  }

  lemma TailOfCons(head: string, a: seq<string>, b: seq<string>)
    ensures ([head] + a + b)[0] == head && ([head] + a + b)[1..] == a + b
  {
  }

  lemma CommandIsKept(names: set<string>, argv: seq<string>)
    requires argv != [] && !Dashed(argv[0]) && forall name <- names :: IsOptionName(name)
    ensures RemoveOptions(names, argv) == [argv[0]] + RemoveOptions(names, argv[1..])
  {
    forall name <- names ensures !Resembles(argv[0], name) {
      ResemblingIsDashed(argv[0], name);
    }
  }

  /** `ForwardingKeepsSession` for a whole argv, command included. */
  lemma ForwardedArgvKeepsSession(table: Table, names: set<string>, argv: seq<string>, appended: seq<Piece>)
    requires argv != [] && !Dashed(argv[0]) && AllTakeOne(table, names)
    requires var (pieces, ending) := Parse(table, argv[1..]);
             ending == [] && Complete(table, pieces) && forall piece <- pieces :: Clear(names, piece)
    requires Complete(table, appended) && PositionalValues(appended) == []
    ensures var t := RemoveOptions(names, argv) + Render(appended, []);
            && t != [] && t[0] == argv[0]
            && SessionOf(SessionArgument(table, t)) == SessionOf(SessionArgument(table, argv))
  {
    var (pieces, ending) := Parse(table, argv[1..]);
    EveryArgvIsARendering(table, argv[1..]);
    ForwardingKeepsSession(table, names, pieces, appended, 1);
    CommandIsKept(names, argv);
    TailOfCons(argv[0], RemoveOptions(names, argv[1..]), Render(appended, []));
  }

  lemma {:induction false} RemoveNothing(tokens: seq<string>)
    ensures RemoveOptions({}, tokens) == tokens
  {
    if tokens != [] {
      RemoveNothing(tokens[1..]);
    }
  }

  /** The scanner reads accepted argv as the option loop did. */
  lemma AcceptedArgvReads(argv: seq<string>)
    requires argv != [] && Settled(argv).Some?
    ensures ReadsAs(ValueOptions("scope-grant"), GRANT_OPTIONS, Settled(argv).value, argv[1..])
  {
    var table := ValueOptions("scope-grant");
    var k := SessionArgument(table, argv).value.0 - 1;
    GrantOptionsTakeOne();
    SessionHasIndex(table, argv[1..], 1);
    AcceptedReadsSession(table, GRANT_OPTIONS, argv[1..], 1, k, map[]);
  }

  /** Where the caller selects no checkout, or supplies no reference that spells a checkout option, scope
      admission neither moves nor loses the session. */
  lemma AdmissionKeepsSession(argv: seq<string>, admission: Admission)
    requires argv != [] && argv[0] == "scope-grant" && Forwarded(argv, admission).Some?
    requires HasSelector(Settled(argv).value) ==> ReferenceIsPlain(Settled(argv).value)
    ensures var t := Forwarded(argv, admission).value;
            && t != [] && t[0] == argv[0]
            && SessionOf(SessionArgument(ValueOptions("scope-grant"), t))
               == SessionOf(SessionArgument(ValueOptions("scope-grant"), argv))
  {
    var table, values := ValueOptions("scope-grant"), Settled(argv).value;
    var session := SessionArgument(table, argv).value.1;
    var reference := Approved(values, session, admission).value;
    var names := if HasSelector(values) then CHECKOUT_OPTIONS else {};
    AcceptedArgvReads(argv);
    CheckoutsTakeOne();
    AppendixIsComplete(values, reference, admission);
    RemoveNothing(argv);
    forall piece <- Parse(table, argv[1..]).0 ensures Clear(names, piece) {
      if HasSelector(values) {
        PiecesAreClear(values, piece);
      }
    }
    ForwardedArgvKeepsSession(table, names, argv, Appendix(values, reference, admission));
  }

  // ----- the exact condition --------------------------------------------------

  /** The caller selects a checkout, and what the scanner finds changes once everything that looks like a
      checkout option is dropped with the token after it. */
  predicate GrantShifts(argv: seq<string>)
    requires argv != []
  {
    var table := ValueOptions("scope-grant");
    && Settled(argv).Some? && HasSelector(Settled(argv).value)
    && Found(table, RemoveOptions(CHECKOUT_OPTIONS, argv[1..])) != Found(table, argv[1..])
  }

  lemma ClearDoesNotShift(argv: seq<string>)
    requires argv != [] && Settled(argv).Some?
    requires forall piece <- Parse(ValueOptions("scope-grant"), argv[1..]).0 :: Clear(CHECKOUT_OPTIONS, piece)
    ensures !GrantShifts(argv)
  {
    var table := ValueOptions("scope-grant");
    var pieces := Parse(table, argv[1..]).0;
    AcceptedArgvReads(argv);
    EveryArgvIsARendering(table, argv[1..]);
    CheckoutsTakeOne();
    ForwardingKeepsSession(table, CHECKOUT_OPTIONS, pieces, [], 1);
    var left := RemoveOptions(CHECKOUT_OPTIONS, argv[1..]);
    assert left + Render([], []) == left;
    FoundIsSession(table, left, 1);
    FoundIsSession(table, argv[1..], 1);
  }

  /** With a plain reference the removal alone leaves the session too. */
  lemma PlainReferenceDoesNotShift(argv: seq<string>)
    requires argv != [] && Settled(argv).Some? && WellNamed(Settled(argv).value)
    requires HasSelector(Settled(argv).value) ==> ReferenceIsPlain(Settled(argv).value)
    ensures !GrantShifts(argv)
  {
    if HasSelector(Settled(argv).value) {
      AcceptedArgvReads(argv);
      forall piece <- Parse(ValueOptions("scope-grant"), argv[1..]).0 ensures Clear(CHECKOUT_OPTIONS, piece) {
        PiecesAreClear(Settled(argv).value, piece);
      }
      ClearDoesNotShift(argv);
    }
  }

  /** Nor does argv in which no option takes a dashed token as its value. */
  lemma PlainValuesDoNotShift(argv: seq<string>)
    requires argv != [] && Settled(argv).Some? && PlainValues(ValueOptions("scope-grant"), argv[1..])
    ensures !GrantShifts(argv)
  {
    var table := ValueOptions("scope-grant");
    PlainPieces(table, argv[1..]);
    CheckoutsTakeOne();
    forall piece <- Parse(table, argv[1..]).0 ensures Clear(CHECKOUT_OPTIONS, piece) {
      if piece.Fixed? {
        forall v <- piece.values, name <- CHECKOUT_OPTIONS ensures !Resembles(v, name) {
          ResemblingIsDashed(v, name);
        }
      }
    }
    ClearDoesNotShift(argv);
  }

  /** What is appended to a supplied reference is no session. */
  lemma AppendixHasNoSession(values: Settings, reference: string, admission: Admission)
    requires WellNamed(values) && APPROVAL in values && !IsSession(admission.facts)
    ensures forall t <- Render(Appendix(values, reference, admission), []) :: !IsSession(t)
  {
    var facts, flag := [Fixed(OWNER_CHECKOUT, [admission.facts])], [Flag(CAMPAIGN_FLAG)];
    RenderOne(facts[0]);
    RenderOne(flag[0]);
    RenderConcat(facts, flag);
    assert !IsSession(OWNER_CHECKOUT) && !IsSession(CAMPAIGN_FLAG);
    var pieces := Appendix(values, reference, admission);
    assert pieces == [] || pieces == facts || pieces == flag || pieces == facts + flag;
  }

  lemma RenderOne(piece: Piece)
    ensures Render([piece], []) == Tokens(piece)
  {
    assert [piece][1..] == [];
    assert Tokens(piece) + Render([], []) == Tokens(piece);
  }

  /** With a supplied reference the authorised session is what the scanner finds in the forwarded part. */
  lemma SuppliedReferenceForwards(argv: seq<string>, admission: Admission)
    requires argv != [] && argv[0] == "scope-grant" && Forwarded(argv, admission).Some?
    requires APPROVAL in Settled(argv).value && HasSelector(Settled(argv).value) && !IsSession(admission.facts)
    ensures var t, table := Forwarded(argv, admission).value, ValueOptions("scope-grant");
            && t != [] && t[0] == argv[0]
            && Found(table, t[1..]) == Found(table, RemoveOptions(CHECKOUT_OPTIONS, argv[1..]))
  {
    var table, values := ValueOptions("scope-grant"), Settled(argv).value;
    var reference := Approved(values, SessionArgument(table, argv).value.1, admission).value;
    var more := Render(Appendix(values, reference, admission), []);
    CheckoutsTakeOne();
    CommandIsKept(CHECKOUT_OPTIONS, argv);
    TailOfCons(argv[0], RemoveOptions(CHECKOUT_OPTIONS, argv[1..]), more);
    AppendixHasNoSession(values, reference, admission);
    FoundAppended(table, RemoveOptions(CHECKOUT_OPTIONS, argv[1..]), more);
  }

  /** Of any argv that it accepts scope admission keeps the session exactly where that does not shift.
      The verified facts are a JSON object, and no session. */
  lemma AdmissionKeepsSessionExactly(argv: seq<string>, admission: Admission)
    requires argv != [] && argv[0] == "scope-grant" && Forwarded(argv, admission).Some?
    requires !IsSession(admission.facts)
    ensures var t := Forwarded(argv, admission).value;
            && t != [] && t[0] == argv[0]
            && ((SessionOf(SessionArgument(ValueOptions("scope-grant"), t))
                 == SessionOf(SessionArgument(ValueOptions("scope-grant"), argv))) <==> !GrantShifts(argv))
  {
    var table, values := ValueOptions("scope-grant"), Settled(argv).value;
    if HasSelector(values) && APPROVAL in values {
      SuppliedReferenceForwards(argv, admission);
      FoundIsSession(table, Forwarded(argv, admission).value[1..], 1);
      FoundIsSession(table, argv[1..], 1);
    } else {
      AdmissionKeepsSession(argv, admission);
      PlainReferenceDoesNotShift(argv);
    }
  }
}
