/** Selecting one project session from a campaign capsule (`_select_project_campaign_context`). */
module Selection {
  import opened Wrappers
  import opened Continuations
  import Duplicates
  import SessionBinding

  datatype Status =
    | Ready | Ambiguous | ContextConflict
    | AmbiguousCampaigns
    | ContextMismatch | Unknown | Blocked | ReconciliationRequired
    | TaskSelectorMismatch | SessionSelectionConflict
    | OtherStatus(code: nat)

  datatype Basis =
    | EnvironmentDefinition | TaskSelector | RegisteredCheckout | EnvironmentAndCheckout
    | ExactSessionLink | RootWorktree | LiveClaimOwner | UniqueCheckpoint

  datatype Why =
    | InventoryIncomplete | SeveralCampaigns | NoCampaign | ExactConflictsWithTask
    | MatcherUnavailable | VerifierUnavailable | NoActiveSession | NoMatch
    | Duplicate(reason: Duplicates.Reason) | SeveralSessions | NotContinuable | ExactNotSelected

  datatype Task = Task(context: Context, session: SessionId)

  /** A count field: left out, not a number, or a number. */
  datatype Count = Left | NotANumber | Number(n: int)

  datatype Capsule = Capsule(
    status: Status, conflict: Option<Status>,
    selected: Option<SessionId>, basis: Option<Basis>, why: Option<Why>,
    repository: Option<string>, task: Option<Task>,
    rowsListed: bool, rows: seq<Row>, rowCount: Count, rowsTruncated: bool,
    campaignsListed: bool, campaigns: seq<Capsule>, campaignCount: Count, campaignsTruncated: bool)

  datatype WorkingCheckout = WorkingCheckout(checkout: Checkout, linked: bool, isRoot: bool)

  /** The grant's project, and Environment's answers about it. */
  datatype Query = Query(
    inScope: bool, repository: string,
    context: Option<Context>, derive: bool, derived: Option<Context>,
    checkout: Option<WorkingCheckout>, exact: Option<SessionId>,
    matcher: Option<Row -> bool>, verifier: Option<Row -> Option<Checkout>>, checker: Option<Checker>)

  predicate CountIs(count: Count, n: int) {
    count.Left? || count == Number(n)
  }

  const SELECTABLE := {"active", "blocked", "waiting", "checkpointed", "abandoned"}

  predicate Selectable(row: Row) {
    row.session.Some? && SessionBinding.IsSession(row.session.value)
    && row.lifecycle in SELECTABLE && row.linked
  }

  function Filter(p: Row -> bool, rows: seq<Row>): (r: seq<Row>)
    ensures |r| <= |rows|
    ensures forall row :: row in r <==> row in rows && p(row)
  {
    if rows == [] then []
    else
      var last := rows[|rows| - 1];
      assert rows == rows[..|rows| - 1] + [last];
      if p(last) then Filter(p, rows[..|rows| - 1]) + [last] else Filter(p, rows[..|rows| - 1])
  }

  // ----- the selector --------------------------------------------------------

  predicate Linked(q: Query) {
    q.checkout.Some? && q.checkout.value.linked
  }

  predicate SelectionStatus(status: Status) {
    status == Ready || status == Ambiguous || status == ContextConflict
  }

  /** The context the rows must have, before the fallback to the registered checkout. */
  function Selector(q: Query, c: Capsule): Option<Context> {
    if c.task.Some? then Some(c.task.value.context)
    else if Linked(q) then None
    else if q.context.Some? || !q.derive then q.context
    else q.derived
  }

  predicate ExactIsConsistent(q: Query, c: Capsule) {
    q.exact.Some? ==>
      && SessionBinding.IsSession(q.exact.value)
      && (c.task.Some? ==> c.task.value.session == q.exact.value)
  }

  /** The rows are all there: nothing was cut off and the count is right. */
  predicate InventoryComplete(c: Capsule) {
    c.rowsListed && !c.rowsTruncated && CountIs(c.rowCount, |c.rows|)
  }

  /** No row has the project's own context, so the checkout alone has to decide. */
  predicate FallsBack(q: Query, c: Capsule) {
    && c.task.None? && !Linked(q) && q.checkout.Some?
    && Selector(q, c).Some? && q.context == Selector(q, c)
    && forall row <- c.rows :: row.context != Selector(q, c).value
  }

  function FinalSelector(q: Query, c: Capsule): Option<Context> {
    if FallsBack(q, c) then None else Selector(q, c)
  }

  function FirstBasis(q: Query, c: Capsule): Basis {
    if q.checkout.Some? && FinalSelector(q, c).None? then RegisteredCheckout
    else if q.checkout.Some? && c.task.None? then EnvironmentAndCheckout
    else if q.exact.Some? then ExactSessionLink
    else if c.task.Some? then TaskSelector
    else EnvironmentDefinition
  }

  // ----- the rows that survive -----------------------------------------------

  /** The row has the selected context and is the session asked for, if one is. */
  predicate InContext(q: Query, c: Capsule, row: Row) {
    && (FinalSelector(q, c).Some? ==> row.context == FinalSelector(q, c).value)
    && (q.exact.Some? ==> row.session == q.exact)
    && (c.task.Some? ==> row.session == Some(c.task.value.session))
  }

  predicate MatchesCheckout(q: Query, row: Row) {
    q.checkout.Some? ==> q.matcher.Some? && q.matcher.value(row)
  }

  function Matching(q: Query, c: Capsule): seq<Row> {
    Filter((row: Row) => InContext(q, c, row) && MatchesCheckout(q, row), c.rows)
  }

  /** Rows of linked worktrees that Git still registers, used when the project root matches none. */
  function Worktrees(q: Query, c: Capsule): seq<Row> {
    if q.verifier.None? then []
    else Filter((row: Row) => Selectable(row) && InContext(q, c, row) && q.verifier.value(row).Some?, c.rows)
  }

  predicate UsesWorktrees(q: Query, c: Capsule) {
    Matching(q, c) == [] && q.checkout.Some? && q.checkout.value.isRoot && Worktrees(q, c) != []
  }

  function Found(q: Query, c: Capsule): seq<Row> {
    if UsesWorktrees(q, c) then Worktrees(q, c) else Matching(q, c)
  }

  /** Selectable rows win over the others. */
  function Survivors(q: Query, c: Capsule): seq<Row> {
    var selectable := Filter(Selectable, Found(q, c));
    if selectable != [] then selectable else Found(q, c)
  }

  /** The checkout under which each survivor was found. */
  function Checkouts(q: Query, c: Capsule): map<SessionId, Checkout>
  {
    if q.checkout.None? then map[]
    else CheckoutsOf(q, UsesWorktrees(q, c), Survivors(q, c))
  }

  function CheckoutsOf(q: Query, worktrees: bool, rows: seq<Row>): map<SessionId, Checkout>
    requires q.checkout.Some?
  {
    if rows == [] then map[]
    else
      var before, row := CheckoutsOf(q, worktrees, rows[..|rows| - 1]), rows[|rows| - 1];
      if row.session.None? then before
      else if worktrees && q.verifier.Some? && q.verifier.value(row).Some?
      then before[row.session.value := q.verifier.value(row).value]
      else before[row.session.value := q.checkout.value.checkout]
  }

  // ----- the decision ----------------------------------------------------------

  datatype Outcome =
    | Keep(why: Option<Why>)
    | Set(status: Status, why: Option<Why>)
    | Demote(status: Status, why: Option<Why>)
    | Select(session: SessionId, basis: Basis)

  function StatusOf(reason: Duplicates.Reason): Status {
    if reason.MultipleClaimOwners? then Blocked else Unknown
  }

  function DuplicateBasis(basis: Duplicates.Basis): Basis {
    if basis.LiveClaimOwner? then LiveClaimOwner else UniqueCheckpoint
  }

  /** What a single row leads to. */
  function DecideRow(q: Query, row: Row, basis: Basis): Outcome {
    if !Selectable(row) then
      if row.linked then Demote(ReconciliationRequired, Some(NotContinuable)) else Keep(Some(NotContinuable))
    else if q.exact.Some? && row.session != q.exact then Set(SessionSelectionConflict, Some(ExactNotSelected))
    else Select(row.session.value, if q.exact.Some? then ExactSessionLink else basis)
  }

  /** What the surviving rows lead to. */
  function DecideRows(q: Query, c: Capsule): Outcome {
    var rows := Survivors(q, c);
    var basis := if UsesWorktrees(q, c) then RootWorktree else FirstBasis(q, c);
    if rows == [] then Demote(ContextMismatch, Some(NoMatch))
    else if |rows| == 1 then DecideRow(q, rows[0], basis)
    else if !Selectable(rows[0]) then Demote(ContextMismatch, Some(NoActiveSession))
    else if q.checkout.None? then Demote(Ambiguous, Some(SeveralSessions))
    else
      match Duplicates.Resolved(rows, q.repository, Checkouts(q, c), q.checker)
      case Unresolved(reason) => Demote(StatusOf(reason), Some(Duplicate(reason)))
      case Chosen(row, b) => DecideRow(q, row, DuplicateBasis(b))
      case NoChoice => Demote(Ambiguous, Some(SeveralSessions))
  }

  function Decide(q: Query, c: Capsule): Outcome {
    if !ExactIsConsistent(q, c) then Set(TaskSelectorMismatch, Some(ExactConflictsWithTask))
    else if Selector(q, c).None? && q.checkout.None? && q.exact.None? then Keep(None)
    else if c.repository.Some? && c.repository.value != q.repository then Keep(None)
    else if !SelectionStatus(c.status) || !c.rowsListed then Keep(None)
    else if !InventoryComplete(c) then Keep(Some(InventoryIncomplete))
    else if q.checkout.Some? && q.matcher.None? then Demote(Unknown, Some(MatcherUnavailable))
    else if Matching(q, c) == [] && q.checkout.Some? && q.checkout.value.isRoot && q.verifier.None?
    then Demote(Unknown, Some(VerifierUnavailable))
    else DecideRows(q, c)
  }

  /** A capsule before its selection: an earlier selection is taken back. */
  function Clean(c: Capsule): Capsule {
    c.(status := if c.conflict.Some? && SelectionStatus(c.conflict.value) then c.conflict.value else c.status,
       conflict := None, selected := None, basis := None, why := None)
  }

  function Apply(c: Capsule, outcome: Outcome): Capsule {
    match outcome
    case Keep(why) => c.(why := why)
    case Set(status, why) => c.(status := status, why := why)
    case Demote(status, why) =>
      if c.status == Ready then c.(status := status, conflict := Some(Ready), why := why) else c.(why := why)
    case Select(session, basis) =>
      c.(status := Ready, selected := Some(session), basis := Some(basis),
         conflict := if c.status == ContextConflict || c.status == Ambiguous then Some(c.status) else c.conflict)
  }

  predicate IsReady(c: Capsule) {
    c.status == Ready && c.selected.Some?
  }

  function ReadyOnes(capsules: seq<Capsule>): (r: seq<Capsule>)
    ensures forall c :: c in r <==> c in capsules && IsReady(c)
  {
    if capsules == [] then []
    else
      var last := capsules[|capsules| - 1];
      assert capsules == capsules[..|capsules| - 1] + [last];
      if IsReady(last) then ReadyOnes(capsules[..|capsules| - 1]) + [last]
      else ReadyOnes(capsules[..|capsules| - 1])
  }

  predicate CampaignsComplete(c: Capsule) {
    c.campaignsListed && !c.campaignsTruncated && CountIs(c.campaignCount, |c.campaigns|)
  }

  function Selected(q: Query, c: Capsule): Capsule
    decreases c, 1
  {
    if !q.inScope then c
    else if Clean(c).status != AmbiguousCampaigns then Apply(Clean(c), Decide(q, Clean(c)))
    else if !CampaignsComplete(c) then Clean(c).(why := Some(InventoryIncomplete))
    else
      var each := SelectedAll(q, c.campaigns);
      var ready := ReadyOnes(each);
      if |ready| == 1 then ready[0]
      else Clean(c).(campaigns := each, why := Some(if |ready| > 1 then SeveralCampaigns else NoCampaign))
  }

  function SelectedAll(q: Query, capsules: seq<Capsule>): (r: seq<Capsule>)
    ensures |r| == |capsules|
    ensures forall k :: 0 <= k < |r| ==> r[k] == Selected(q, capsules[k])
    decreases capsules, 2
  {
    if capsules == [] then [] else
    SelectedAll(q, capsules[..|capsules| - 1]) + [Selected(q, capsules[|capsules| - 1])]
  }

  // ----- idempotence -------------------------------------------------------------

  /** What selecting twice must not change. */
  predicate SameSelection(a: Capsule, b: Capsule) {
    a.status == b.status && a.selected == b.selected && a.basis == b.basis
  }

  /** Taking back a selection restores the capsule that was decided on, up to a status that the
      decision sets outright. */
  lemma CleanUndoesApply(c: Capsule, outcome: Outcome)
    requires c == Clean(c) && c.conflict.None?
    requires outcome.Select? ==> SelectionStatus(c.status)
    ensures Clean(Apply(c, outcome)) == if outcome.Set? then c.(status := outcome.status) else c
  {
  }

  lemma SurvivorsAreInContext(q: Query, c: Capsule, row: Row)
    requires row in Survivors(q, c)
    ensures row in c.rows && InContext(q, c, row)
    ensures |Survivors(q, c)| > 1 && Selectable(Survivors(q, c)[0]) ==> Selectable(row)
  {
  }

  lemma ResolvedRowSurvives(q: Query, c: Capsule, row: Row, basis: Duplicates.Basis)
    ensures var resolution := Duplicates.Resolved(Survivors(q, c), q.repository, Checkouts(q, c), q.checker);
            resolution == Duplicates.Chosen(row, basis) ==> row in Survivors(q, c)
  {
    Duplicates.ChoiceIsJustified(Survivors(q, c), q.repository, Checkouts(q, c), q.checker, row, basis);
  }

  /** A session other than the one asked for is never reached. */
  lemma RowsNeverConflict(q: Query, c: Capsule)
    ensures !DecideRows(q, c).Set?
  {
    var rows := Survivors(q, c);
    if rows != [] {
      SurvivorsAreInContext(q, c, rows[0]);
      var resolution := Duplicates.Resolved(rows, q.repository, Checkouts(q, c), q.checker);
      if resolution.Chosen? {
        ResolvedRowSurvives(q, c, resolution.row, resolution.basis);
        SurvivorsAreInContext(q, c, resolution.row);
      }
    }
  }

  lemma SetMeansInconsistent(q: Query, c: Capsule)
    ensures Decide(q, c).Set? ==>
              !ExactIsConsistent(q, c) && Decide(q, c) == Set(TaskSelectorMismatch, Some(ExactConflictsWithTask))
    ensures Decide(q, c).Select? ==> SelectionStatus(c.status) && Decide(q, c) == DecideRows(q, c)
  {
    RowsNeverConflict(q, c);
  }

  /** The decision on a capsule whose selection was taken back is the decision made before. */
  lemma DecideAgain(q: Query, c: Capsule, outcome: Outcome)
    requires c == Clean(c) && c.conflict.None? && outcome == Decide(q, c)
    ensures Decide(q, Clean(Apply(c, outcome))) == outcome
  {
    SetMeansInconsistent(q, c);
    CleanUndoesApply(c, outcome);
    if outcome.Set? {
      InconsistentWhateverStatus(q, c, outcome.status);
    }
  }

  lemma InconsistentWhateverStatus(q: Query, c: Capsule, status: Status)
    requires !ExactIsConsistent(q, c)
    ensures Decide(q, c.(status := status)) == Set(TaskSelectorMismatch, Some(ExactConflictsWithTask))
  {
  }

  lemma ApplyTwice(c: Capsule, outcome: Outcome)
    requires c == Clean(c) && c.conflict.None?
    requires outcome.Select? ==> SelectionStatus(c.status)
    ensures SameSelection(Apply(Clean(Apply(c, outcome)), outcome), Apply(c, outcome))
  {
    CleanUndoesApply(c, outcome);
  }

  lemma SelectOneIsIdempotent(q: Query, c: Capsule)
    requires q.inScope && Clean(c).status != AmbiguousCampaigns
    ensures SameSelection(Selected(q, Selected(q, c)), Selected(q, c))
  {
    var before := Clean(c);
    var outcome := Decide(q, before);
    SetMeansInconsistent(q, before);
    DecideAgain(q, before, outcome);
    ApplyTwice(before, outcome);
    CleanUndoesApply(before, outcome);
    var after := Apply(before, outcome);
    assert Selected(q, c) == after;
    assert Clean(after).status != AmbiguousCampaigns;
    assert Selected(q, after) == Apply(Clean(after), Decide(q, Clean(after)));
  }

  lemma {:induction false} SameReadyCount(a: seq<Capsule>, b: seq<Capsule>)
    requires |a| == |b| && forall k :: 0 <= k < |a| ==> SameSelection(a[k], b[k])
    ensures |ReadyOnes(a)| == |ReadyOnes(b)|
  {
    if a != [] {
      SameReadyCount(a[..|a| - 1], b[..|b| - 1]);
    }
  }

  /** Several campaigns, none or more than one of which is ready: the count stays what it was. */
  lemma UnresolvedCampaignsStay(q: Query, c: Capsule, each: seq<Capsule>)
    requires q.inScope && Clean(c).status == AmbiguousCampaigns && CampaignsComplete(c)
    requires each == SelectedAll(q, c.campaigns) && |ReadyOnes(each)| != 1
    requires |ReadyOnes(SelectedAll(q, each))| == |ReadyOnes(each)|
    ensures SameSelection(Selected(q, Selected(q, c)), Selected(q, c))
  {
    var r := Selected(q, c);
    assert r.campaigns == each && Clean(r).status == AmbiguousCampaigns && CampaignsComplete(r);
  }

  /** Applying the selection to its own result gives the same status, session and basis, however
      deeply campaigns are nested. */
  lemma {:induction false} SelectionIsIdempotent(q: Query, c: Capsule)
    ensures SameSelection(Selected(q, Selected(q, c)), Selected(q, c))
    decreases c, 1
  {
    if q.inScope {
      if Clean(c).status != AmbiguousCampaigns {
        SelectOneIsIdempotent(q, c);
      } else if CampaignsComplete(c) {
        CampaignSelectionIsIdempotent(q, c);
      }
    }
  }

  lemma {:induction false} CampaignSelectionIsIdempotent(q: Query, c: Capsule)
    requires q.inScope && Clean(c).status == AmbiguousCampaigns && CampaignsComplete(c)
    ensures SameSelection(Selected(q, Selected(q, c)), Selected(q, c))
    decreases c, 0
  {
    var each := SelectedAll(q, c.campaigns);
    var again := SelectedAll(q, each);
    forall k | 0 <= k < |each| ensures SameSelection(again[k], each[k]) {
      SelectionIsIdempotent(q, c.campaigns[k]);
    }
    var ready := ReadyOnes(each);
    if |ready| == 1 {
      assert ready[0] in each && Selected(q, c) == ready[0];
      var k :| 0 <= k < |each| && each[k] == ready[0];
      assert again[k] == Selected(q, each[k]);
    } else {
      SameReadyCount(again, each);
      UnresolvedCampaignsStay(q, c, each);
    }
  }

  // ----- which rows are candidates ---------------------------------------------------

  /** The context that rows must have: that of the task selector; else, outside a linked worktree, the
      project's own, unless that is the one asked for and no row has it. */
  predicate Expects(q: Query, c: Capsule, x: Context) {
    if c.task.Some? then x == c.task.value.context
    else
      && !(q.checkout.Some? && q.checkout.value.linked)
      && (if q.context.Some? || !q.derive then q.context else q.derived) == Some(x)
      && !(q.checkout.Some? && q.context == Some(x) && forall row <- c.rows :: row.context != x)
  }

  /** The row has the expected context and is the session asked for and that of the task selector. */
  ghost predicate Fits(q: Query, c: Capsule, row: Row) {
    && (forall x :: Expects(q, c, x) ==> row.context == x)
    && (q.exact.Some? ==> row.session == Some(q.exact.value))
    && (c.task.Some? ==> row.session == Some(c.task.value.session))
  }

  predicate Matched(q: Query, row: Row) {
    q.matcher.Some? && q.matcher.value(row)
  }

  /** A session that can be continued, fits, and is at the checkout if there is one; or, with the project
      root as the checkout and none there, in another worktree that Git still registers. */
  ghost predicate Candidate(q: Query, c: Capsule, row: Row) {
    && row in c.rows && Fits(q, c, row)
    && row.session.Some? && SessionBinding.IsSession(row.session.value) && row.linked
    && row.lifecycle in {"active", "blocked", "waiting", "checkpointed", "abandoned"}
    && (q.checkout.None? || Matched(q, row)
        || (&& q.checkout.value.isRoot && q.verifier.Some? && q.verifier.value(row).Some?
            && forall other <- c.rows :: Fits(q, c, other) ==> !Matched(q, other)))
  }

  lemma ExpectsIsSelector(q: Query, c: Capsule)
    ensures forall x :: Expects(q, c, x) <==> FinalSelector(q, c) == Some(x)
  {
    if FinalSelector(q, c).Some? {
      assert Expects(q, c, FinalSelector(q, c).value);
    }
  }

  lemma FitsIsInContext(q: Query, c: Capsule, row: Row)
    ensures Fits(q, c, row) <==> InContext(q, c, row)
  {
    ExpectsIsSelector(q, c);
    if FinalSelector(q, c).Some? {
      assert Expects(q, c, FinalSelector(q, c).value);
    }
  }

  /** The survivors that can be continued are exactly the candidates. */
  lemma SurvivorsAreCandidates(q: Query, c: Capsule, row: Row)
    ensures row in Survivors(q, c) && Selectable(row) <==> Candidate(q, c, row)
  {
    forall other ensures Fits(q, c, other) <==> InContext(q, c, other) {
      FitsIsInContext(q, c, other);
    }
    var selectable := Filter(Selectable, Found(q, c));
    assert row in selectable <==> row in Found(q, c) && Selectable(row);
    NoneMatches(q, c);
  }

  lemma NoneMatches(q: Query, c: Capsule)
    ensures Matching(q, c) == [] <==> forall row <- c.rows :: !(InContext(q, c, row) && MatchesCheckout(q, row))
  {
    if Matching(q, c) != [] {
      assert Matching(q, c)[0] in Matching(q, c);
    }
  }

  /** In the order of the rows, and as often as they are listed. */
  lemma SurvivorsFilterRows(q: Query, c: Capsule, row: Row)
    requires Candidate(q, c, row)
    ensures forall survivor <- Survivors(q, c) :: Candidate(q, c, survivor)
  {
    SurvivorsAreCandidates(q, c, row);
    forall survivor <- Survivors(q, c) ensures Candidate(q, c, survivor) {
      SurvivorsAreCandidates(q, c, survivor);
    }
  }

  // ----- when a session is selected ------------------------------------------------

  /** The rows are all there: a list, nothing cut off, and no count that says otherwise. */
  predicate RowsAreAll(c: Capsule) {
    c.rowsListed && !c.rowsTruncated && (c.rowCount.Left? || c.rowCount == Number(|c.rows|))
  }

  predicate CampaignsAreAll(c: Capsule) {
    c.campaignsListed && !c.campaignsTruncated && (c.campaignCount.Left? || c.campaignCount == Number(|c.campaigns|))
  }

  /** Everything but the rows speaks for a selection. */
  predicate Usable(q: Query, c: Capsule) {
    && (q.exact.Some? ==>
          SessionBinding.IsSession(q.exact.value) && (c.task.Some? ==> c.task.value.session == q.exact.value))
    && (q.exact.Some? || q.checkout.Some? || c.task.Some? || q.context.Some? || (q.derive && q.derived.Some?))
    && (c.repository.Some? ==> c.repository.value == q.repository)
    && c.status in {Ready, Ambiguous, ContextConflict} && RowsAreAll(c)
    && (q.checkout.Some? ==> q.matcher.Some?)
    && (Matching(q, c) == [] && q.checkout.Some? && q.checkout.value.isRoot ==> q.verifier.Some?)
  }

  /** The row is the only survivor, or the duplicate resolver justifies it. */
  ghost predicate Prevails(q: Query, c: Capsule, row: Row) {
    || Survivors(q, c) == [row]
    || (|Survivors(q, c)| > 1 && q.checkout.Some?
        && exists basis :: Duplicates.Justified(
             Survivors(q, c), q.repository, Checkouts(q, c), q.checker, row, basis))
  }

  lemma RowsSelectPrevailing(q: Query, c: Capsule, session: SessionId)
    ensures DecideRows(q, c).Select? && DecideRows(q, c).session == session
       <==> exists row :: Prevails(q, c, row) && Selectable(row) && row.session == Some(session)
  {
    var rows := Survivors(q, c);
    var resolution := Duplicates.Resolved(rows, q.repository, Checkouts(q, c), q.checker);
    forall row, basis
      ensures resolution == Duplicates.Chosen(row, basis) <==>
              Duplicates.Justified(rows, q.repository, Checkouts(q, c), q.checker, row, basis)
    {
      Duplicates.ChoiceIsJustified(rows, q.repository, Checkouts(q, c), q.checker, row, basis);
    }
    RowsNeverConflict(q, c);
    if |rows| == 1 {
      assert rows == [rows[0]];
      assert Prevails(q, c, rows[0]);
    }
    if |rows| > 1 && resolution.Chosen? {
      SurvivorsAreInContext(q, c, resolution.row);
      assert q.checkout.Some? ==> Prevails(q, c, resolution.row);
    }
  }

  lemma PrevailingSurvives(q: Query, c: Capsule, row: Row)
    requires Prevails(q, c, row)
    ensures row in Survivors(q, c)
  {
    if Survivors(q, c) != [row] {
      var basis :| Duplicates.Justified(Survivors(q, c), q.repository, Checkouts(q, c), q.checker, row, basis);
      Duplicates.ChoiceIsJustified(Survivors(q, c), q.repository, Checkouts(q, c), q.checker, row, basis);
      ResolvedRowSurvives(q, c, row, basis);
    }
  }

  /** Some candidate for the session prevails. */
  ghost predicate CandidatePrevails(q: Query, c: Capsule, session: SessionId) {
    exists row :: Prevails(q, c, row) && Candidate(q, c, row) && row.session == Some(session)
  }

  /** The rows are looked at exactly in a usable capsule. */
  lemma UsableExactly(q: Query, c: Capsule)
    ensures if Usable(q, c) then Decide(q, c) == DecideRows(q, c) else !Decide(q, c).Select?
  {
  }

  lemma PrevailingIsCandidate(q: Query, c: Capsule, row: Row)
    requires Prevails(q, c, row)
    ensures Selectable(row) <==> Candidate(q, c, row)
  {
    PrevailingSurvives(q, c, row);
    SurvivorsAreCandidates(q, c, row);
  }

  lemma CandidatesPrevail(q: Query, c: Capsule, session: SessionId)
    ensures CandidatePrevails(q, c, session)
       <==> exists row :: Prevails(q, c, row) && Selectable(row) && row.session == Some(session)
  {
    if row :| Prevails(q, c, row) && Selectable(row) && row.session == Some(session) {
      PrevailingIsCandidate(q, c, row);
    }
    if row :| Prevails(q, c, row) && Candidate(q, c, row) && row.session == Some(session) {
      PrevailingIsCandidate(q, c, row);
    }
  }

  /** A single capsule selects a session exactly when it is usable, its inventory complete, and a
      candidate for that session prevails. */
  lemma SelectsExactly(q: Query, c: Capsule, session: SessionId)
    ensures Decide(q, c).Select? && Decide(q, c).session == session
       <==> Usable(q, c) && CandidatePrevails(q, c, session)
  {
    UsableExactly(q, c);
    RowsSelectPrevailing(q, c, session);
    CandidatesPrevail(q, c, session);
  }

  /** A capsule that a chain of complete campaign inventories leads to. */
  ghost predicate Leaf(c: Capsule, leaf: Capsule)
    decreases c
  {
    || leaf == c
    || (&& Clean(c).status == AmbiguousCampaigns && CampaignsAreAll(c)
        && exists k :: 0 <= k < |c.campaigns| && Leaf(c.campaigns[k], leaf))
  }

  ghost predicate SelectedIn(q: Query, c: Capsule, session: SessionId) {
    RowsAreAll(c) && Usable(q, c) && CandidatePrevails(q, c, session)
  }

  lemma SelectingCampaign(q: Query, c: Capsule, session: SessionId) returns (k: nat)
    requires q.inScope && Clean(c).status == AmbiguousCampaigns && Selected(q, c).selected == Some(session)
    ensures k < |c.campaigns| && Selected(q, c.campaigns[k]).selected == Some(session) && CampaignsAreAll(c)
  {
    var each := SelectedAll(q, c.campaigns);
    var ready := ReadyOnes(each);
    assert ready[0] in each;
    k :| 0 <= k < |each| && each[k] == ready[0];
  }

  /** A session is never selected from a truncated or miscounted inventory: whatever campaign it
      comes from, every inventory on the way is complete and its row prevails there. */
  lemma {:induction false} SelectedOnlyUnambiguously(q: Query, c: Capsule, session: SessionId)
    requires q.inScope && Selected(q, c).selected == Some(session)
    ensures exists leaf :: Leaf(c, leaf) && SelectedIn(q, Clean(leaf), session)
    decreases c
  {
    if Clean(c).status != AmbiguousCampaigns {
      SelectsExactly(q, Clean(c), session);
      assert Leaf(c, c) && SelectedIn(q, Clean(c), session);
    } else {
      var k := SelectingCampaign(q, c, session);
      SelectedOnlyUnambiguously(q, c.campaigns[k], session);
      var leaf :| Leaf(c.campaigns[k], leaf) && SelectedIn(q, Clean(leaf), session);
      assert Leaf(c, leaf);
    }
  }

  /** A truncated or miscounted inventory, of rows or of campaigns, selects nothing. */
  lemma IncompleteSelectsNothing(q: Query, c: Capsule)
    requires q.inScope && !(if Clean(c).status == AmbiguousCampaigns then CampaignsAreAll(c) else RowsAreAll(c))
    ensures Selected(q, c).selected.None?
  {
    if Clean(c).status != AmbiguousCampaigns {
      var outcome := Decide(q, Clean(c));
      if outcome.Select? {
        SelectsExactly(q, Clean(c), outcome.session);
      }
      SetMeansInconsistent(q, Clean(c));
    }
  }

  lemma {:induction false} TwoReady(capsules: seq<Capsule>, i: nat, j: nat)
    requires i < j < |capsules| && IsReady(capsules[i]) && IsReady(capsules[j])
    ensures |ReadyOnes(capsules)| >= 2
  {
    var before := capsules[..|capsules| - 1];
    if j < |capsules| - 1 {
      TwoReady(before, i, j);
    } else {
      assert before[i] in before && IsReady(before[i]);
      assert capsules[i] in ReadyOnes(before);
    }
  }

  /** Of several campaigns, a session is selected only when exactly one of them selects. */
  lemma OneCampaignSelects(q: Query, c: Capsule, i: nat, j: nat)
    requires q.inScope && Clean(c).status == AmbiguousCampaigns && CampaignsComplete(c)
    requires i < j < |c.campaigns|
    ensures IsReady(Selected(q, c.campaigns[i])) && IsReady(Selected(q, c.campaigns[j])) ==>
              Selected(q, c).selected.None? && Selected(q, c).status == AmbiguousCampaigns
  {
    if IsReady(Selected(q, c.campaigns[i])) && IsReady(Selected(q, c.campaigns[j])) {
      TwoReady(SelectedAll(q, c.campaigns), i, j);
    }
  }

  // ----- the procedure ---------------------------------------------------------------

  method FilterRows(p: Row -> bool, rows: seq<Row>) returns (kept: seq<Row>)
    ensures kept == Filter(p, rows)
  {
    kept := [];
    for k := 0 to |rows|
      invariant kept == Filter(p, rows[..k])
    {
      assert rows[..k + 1][..k] == rows[..k];
      if p(rows[k]) {
        kept := kept + [rows[k]];
      }
    }
    assert rows[..|rows|] == rows;
  }

  /** The loop that records under which checkout each row was found. */
  method RecordCheckouts(q: Query, worktrees: bool, rows: seq<Row>) returns (found: map<SessionId, Checkout>)
    requires q.checkout.Some?
    ensures found == CheckoutsOf(q, worktrees, rows)
  {
    found := map[];
    for k := 0 to |rows|
      invariant found == CheckoutsOf(q, worktrees, rows[..k])
    {
      assert rows[..k + 1][..k] == rows[..k];
      if rows[k].session.None? {
        continue;
      }
      if worktrees && q.verifier.Some? && q.verifier.value(rows[k]).Some? {
        found := found[rows[k].session.value := q.verifier.value(rows[k]).value];
      } else {
        found := found[rows[k].session.value := q.checkout.value.checkout];
      }
    }
    assert rows[..|rows|] == rows;
  }

  /** The rows that are left after every filter. */
  method NarrowRows(q: Query, c: Capsule) returns (rows: seq<Row>, worktrees: bool)
    ensures rows == Survivors(q, c) && worktrees == UsesWorktrees(q, c)
  {
    rows := FilterRows((row: Row) => InContext(q, c, row) && MatchesCheckout(q, row), c.rows);
    worktrees := false;
    if rows == [] && q.checkout.Some? && q.checkout.value.isRoot && q.verifier.Some? {
      var verified := FilterRows(
        (row: Row) => Selectable(row) && InContext(q, c, row) && q.verifier.value(row).Some?, c.rows);
      if verified != [] {
        rows := verified;
        worktrees := true;
      }
    }
    var selectable := FilterRows(Selectable, rows);
    if selectable != [] {
      rows := selectable;
    }
  }

  method ChooseRow(q: Query, c: Capsule) returns (outcome: Outcome)
    ensures outcome == DecideRows(q, c)
  {
    var rows, worktrees := NarrowRows(q, c);
    var basis := if worktrees then RootWorktree else FirstBasis(q, c);
    if rows == [] {
      return Demote(ContextMismatch, Some(NoMatch));
    }
    if |rows| > 1 {
      if !Selectable(rows[0]) {
        return Demote(ContextMismatch, Some(NoActiveSession));
      }
      if q.checkout.None? {
        return Demote(Ambiguous, Some(SeveralSessions));
      }
      var checkouts := RecordCheckouts(q, worktrees, rows);
      var resolution := Duplicates.Resolve(rows, q.repository, checkouts, q.checker);
      match resolution {
        case Unresolved(reason) =>
          return Demote(StatusOf(reason), Some(Duplicate(reason)));
        case NoChoice =>
          return Demote(Ambiguous, Some(SeveralSessions));
        case Chosen(row, b) =>
          return DecideRow(q, row, DuplicateBasis(b));
      }
    }
    outcome := DecideRow(q, rows[0], basis);
  }

  /** One capsule, changed step by step as the code changes its dictionary. */
  method SelectContext(q: Query, capsule: Capsule) returns (c: Capsule)
    ensures c == Selected(q, capsule)
    decreases capsule
  {
    c := capsule;
    if !q.inScope {
      return;
    }
    if c.conflict.Some? && SelectionStatus(c.conflict.value) {
      c := c.(status := c.conflict.value);
    }
    c := c.(conflict := None, selected := None, basis := None, why := None);
    if c.status == AmbiguousCampaigns {
      if !CampaignsComplete(c) {
        c := c.(why := Some(InventoryIncomplete));
        return;
      }
      var each := [];
      for k := 0 to |capsule.campaigns|
        invariant each == SelectedAll(q, capsule.campaigns[..k])
      {
        assert capsule.campaigns[..k + 1][..k] == capsule.campaigns[..k];
        var one := SelectContext(q, capsule.campaigns[k]);
        each := each + [one];
      }
      assert capsule.campaigns[..|capsule.campaigns|] == capsule.campaigns;
      var ready := ReadyOnes(each);
      if |ready| == 1 {
        return ready[0];
      }
      c := c.(campaigns := each, why := Some(if |ready| > 1 then SeveralCampaigns else NoCampaign));
      return;
    }
    assert c == Clean(capsule);
    var outcome := DecideCapsule(q, c);
    c := Apply(c, outcome);
  }

  method DecideCapsule(q: Query, c: Capsule) returns (outcome: Outcome)
    ensures outcome == Decide(q, c)
  {
    if !ExactIsConsistent(q, c) {
      return Set(TaskSelectorMismatch, Some(ExactConflictsWithTask));
    }
    if Selector(q, c).None? && q.checkout.None? && q.exact.None? {
      return Keep(None);
    }
    if (c.repository.Some? && c.repository.value != q.repository) || !SelectionStatus(c.status) || !c.rowsListed {
      return Keep(None);
    }
    if !InventoryComplete(c) {
      return Keep(Some(InventoryIncomplete));
    }
    if q.checkout.Some? && q.matcher.None? {
      return Demote(Unknown, Some(MatcherUnavailable));
    }
    var matching := FilterRows((row: Row) => InContext(q, c, row) && MatchesCheckout(q, row), c.rows);
    if matching == [] && q.checkout.Some? && q.checkout.value.isRoot && q.verifier.None? {
      return Demote(Unknown, Some(VerifierUnavailable));
    }
    outcome := ChooseRow(q, c);
  }
}
