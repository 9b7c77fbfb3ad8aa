/** How the selection of one capsule ends: the basis it names, and why and with which status it selects
    nothing. */
module SelectionOutcomes {
  import opened Wrappers
  import opened Continuations
  import opened Selection
  import Duplicates
  import SessionBinding

  // ----- the rows that are left without a candidate --------------------------------------

  ghost predicate HasCandidate(q: Query, c: Capsule) {
    exists row :: Candidate(q, c, row)
  }

  lemma WorktreesAreCandidates(q: Query, c: Capsule)
    requires UsesWorktrees(q, c)
    ensures HasCandidate(q, c)
  {
    var row := Worktrees(q, c)[0];
    assert row in Worktrees(q, c) && Selectable(row);
    assert row in Filter(Selectable, Found(q, c));
    SurvivorsAreCandidates(q, c, row);
  }

  /** Without a candidate the rows that are left are those that fit and are at the checkout. */
  lemma OthersAreLeft(q: Query, c: Capsule, row: Row)
    requires !HasCandidate(q, c)
    ensures row in Survivors(q, c) <==> row in c.rows && Fits(q, c, row) && (q.checkout.None? || Matched(q, row))
  {
    FitsIsInContext(q, c, row);
    if UsesWorktrees(q, c) {
      WorktreesAreCandidates(q, c);
    } else {
      var selectable := Filter(Selectable, Matching(q, c));
      if selectable != [] {
        assert selectable[0] in selectable;
        SurvivorsAreCandidates(q, c, selectable[0]);
      }
    }
  }

  /** Either every row that is left is a candidate, or none is. */
  lemma AllOrNone(q: Query, c: Capsule)
    ensures HasCandidate(q, c) ==> Survivors(q, c) != [] && forall row <- Survivors(q, c) :: Candidate(q, c, row)
    ensures !HasCandidate(q, c) ==> forall row <- Survivors(q, c) :: !Selectable(row)
  {
    if row :| Candidate(q, c, row) {
      SurvivorsAreCandidates(q, c, row);
      SurvivorsFilterRows(q, c, row);
    } else {
      forall row <- Survivors(q, c) ensures !Selectable(row) {
        SurvivorsAreCandidates(q, c, row);
      }
    }
  }

  // ----- why nothing is selected ----------------------------------------------------------

  function Resolution(q: Query, c: Capsule): Duplicates.Resolution {
    Duplicates.Resolved(Survivors(q, c), q.repository, Checkouts(q, c), q.checker)
  }

  /** All that the rows say: those that are left, whether there are candidates among them, whether there is
      a checkout, and what the duplicate resolver answers. */
  datatype Finding = Finding(rows: seq<Row>, candidates: bool, checkout: bool, resolution: Duplicates.Resolution)

  ghost function FindingOf(q: Query, c: Capsule): Finding {
    Finding(Survivors(q, c), HasCandidate(q, c), q.checkout.Some?, Resolution(q, c))
  }

  /** The session asked for is no session, or not that of the task selector. */
  predicate Contradictory(q: Query, c: Capsule) {
    q.exact.Some?
    && (!SessionBinding.IsSession(q.exact.value) || (c.task.Some? && c.task.value.session != q.exact.value))
  }

  /** There is something to select by, and the capsule is this repository's and lists its rows. */
  predicate Open(q: Query, c: Capsule) {
    && !Contradictory(q, c)
    && (q.exact.Some? || q.checkout.Some? || c.task.Some? || q.context.Some? || (q.derive && q.derived.Some?))
    && (c.repository.Some? ==> c.repository.value == q.repository)
    && c.status in {Ready, Ambiguous, ContextConflict} && c.rowsListed
  }

  /** The project root is the checkout and no row that fits is at it, so other worktrees have to be
      looked at. */
  ghost predicate NeedsWorktrees(q: Query, c: Capsule) {
    && q.checkout.Some? && q.checkout.value.isRoot
    && forall row <- c.rows :: Fits(q, c, row) ==> !Matched(q, row)
  }

  lemma NeedsWorktreesMeans(q: Query, c: Capsule)
    ensures NeedsWorktrees(q, c) <==> Matching(q, c) == [] && q.checkout.Some? && q.checkout.value.isRoot
  {
    NoneMatches(q, c);
    forall row ensures Fits(q, c, row) <==> InContext(q, c, row) {
      FitsIsInContext(q, c, row);
    }
  }

  /** The reason that the rows give. */
  predicate RowsSay(f: Finding, why: Why) {
    match why
    case NoMatch => f.rows == []
    case NotContinuable => !f.candidates && |f.rows| == 1
    case NoActiveSession => !f.candidates && |f.rows| > 1
    case SeveralSessions => f.candidates && |f.rows| > 1 && (!f.checkout || f.resolution == Duplicates.NoChoice)
    case Duplicate(reason) =>
      f.candidates && |f.rows| > 1 && f.checkout && f.resolution == Duplicates.Unresolved(reason)
    case _ => false
  }

  /** The reason that is given. */
  ghost predicate Because(q: Query, c: Capsule, why: Why) {
    match why
    case ExactConflictsWithTask => Contradictory(q, c)
    case InventoryIncomplete => Open(q, c) && !RowsAreAll(c)
    case MatcherUnavailable => Open(q, c) && RowsAreAll(c) && q.checkout.Some? && q.matcher.None?
    case VerifierUnavailable =>
      Open(q, c) && RowsAreAll(c) && q.matcher.Some? && NeedsWorktrees(q, c) && q.verifier.None?
    case _ => Usable(q, c) && RowsSay(FindingOf(q, c), why)
  }

  /** What the rows lead to, where no session is selected. */
  predicate EndsIn(f: Finding, o: Outcome) {
    if f.rows == [] then !f.candidates && o == Demote(ContextMismatch, Some(NoMatch))
    else if |f.rows| == 1 then
      if f.candidates then o.Select?
      else if f.rows[0].linked then o == Demote(ReconciliationRequired, Some(NotContinuable))
      else o == Keep(Some(NotContinuable))
    else if !f.candidates then o == Demote(ContextMismatch, Some(NoActiveSession))
    else if !f.checkout then o == Demote(Ambiguous, Some(SeveralSessions))
    else
      match f.resolution
      case NoChoice => o == Demote(Ambiguous, Some(SeveralSessions))
      case Unresolved(reason) =>
        o == Demote(if reason == Duplicates.MultipleClaimOwners then Blocked else Unknown, Some(Duplicate(reason)))
      case Chosen(_, _) => o.Select?
  }

  lemma OneRowEnds(q: Query, c: Capsule)
    requires |Survivors(q, c)| == 1
    ensures EndsIn(FindingOf(q, c), DecideRows(q, c))
  {
    AllOrNone(q, c);
    RowsNeverConflict(q, c);
    SurvivorsAreCandidates(q, c, Survivors(q, c)[0]);
  }

  lemma ManyRowsEnd(q: Query, c: Capsule)
    requires |Survivors(q, c)| > 1
    ensures EndsIn(FindingOf(q, c), DecideRows(q, c))
  {
    AllOrNone(q, c);
    assert Survivors(q, c)[0] in Survivors(q, c);
    if HasCandidate(q, c) {
      SurvivorsAreCandidates(q, c, Survivors(q, c)[0]);
      if Resolution(q, c).Chosen? {
        RowsNeverConflict(q, c);
        ResolvedRowSurvives(q, c, Resolution(q, c).row, Resolution(q, c).basis);
        SurvivorsAreCandidates(q, c, Resolution(q, c).row);
      }
    }
  }

  lemma RowsEnd(q: Query, c: Capsule)
    ensures EndsIn(FindingOf(q, c), DecideRows(q, c))
  {
    AllOrNone(q, c);
    if |Survivors(q, c)| == 1 {
      OneRowEnds(q, c);
    } else if |Survivors(q, c)| > 1 {
      ManyRowsEnd(q, c);
    }
  }

  function WhyOf(o: Outcome): Option<Why> {
    if o.Select? then None else o.why
  }

  lemma RowsEndAs(f: Finding, o: Outcome, why: Why)
    requires EndsIn(f, o)
    ensures WhyOf(o) == Some(why) <==> RowsSay(f, why)
  {
    if f.rows == [] {
    } else if |f.rows| == 1 {
    } else if !f.candidates || !f.checkout {
    } else {
      match f.resolution
      case NoChoice =>
      case Unresolved(reason) =>
      case Chosen(_, _) =>
    }
  }

  /** What a capsule whose rows are not looked at ends in. */
  ghost predicate EndsEarly(q: Query, c: Capsule, o: Outcome) {
    if Contradictory(q, c) then o == Set(TaskSelectorMismatch, Some(ExactConflictsWithTask))
    else if !Open(q, c) then o == Keep(None)
    else if !RowsAreAll(c) then o == Keep(Some(InventoryIncomplete))
    else if q.matcher.None? then o == Demote(Unknown, Some(MatcherUnavailable))
    else o == Demote(Unknown, Some(VerifierUnavailable))
  }

  lemma UnusableEnds(q: Query, c: Capsule)
    requires !Usable(q, c)
    ensures EndsEarly(q, c, Decide(q, c))
  {
  }

  lemma UsableMeans(q: Query, c: Capsule)
    ensures Usable(q, c) <==>
              && Open(q, c) && RowsAreAll(c) && (q.checkout.Some? ==> q.matcher.Some?)
              && (NeedsWorktrees(q, c) ==> q.verifier.Some?)
  {
    NeedsWorktreesMeans(q, c);
  }

  lemma UnusableEndsAs(q: Query, c: Capsule, o: Outcome, why: Why)
    requires !Usable(q, c) && EndsEarly(q, c, o) && c.why.None?
    ensures !o.Select? && Apply(c, o).why == Some(why) <==> Because(q, c, why)
  {
    UsableMeans(q, c);
  }

  lemma AppliedWhy(c: Capsule, o: Outcome, why: Why)
    requires c.why.None?
    ensures !o.Select? && Apply(c, o).why == Some(why) <==> WhyOf(o) == Some(why)
  {
  }

  lemma DecidedWhy(q: Query, c: Capsule, why: Why)
    requires c.why.None?
    ensures WhyOf(Decide(q, c)) == Some(why) <==> Because(q, c, why)
  {
    UsableExactly(q, c);
    if Usable(q, c) {
      RowsEnd(q, c);
      RowsEndAs(FindingOf(q, c), DecideRows(q, c), why);
      UsableMeans(q, c);
    } else {
      UnusableEnds(q, c);
      UnusableEndsAs(q, c, Decide(q, c), why);
      AppliedWhy(c, Decide(q, c), why);
    }
  }

  /** A capsule that selects nothing gives a reason exactly if that is the reason. */
  lemma ReasonsExactly(q: Query, c: Capsule, why: Why)
    requires c.why.None?
    ensures !Decide(q, c).Select? && Apply(c, Decide(q, c)).why == Some(why) <==> Because(q, c, why)
  {
    AppliedWhy(c, Decide(q, c), why);
    DecidedWhy(q, c, why);
  }

  // ----- with which status -------------------------------------------------------------------

  /** The status that takes the place of Ready for what the rows say. */
  predicate RowsDemote(f: Finding, status: Status) {
    match status
    case Unknown =>
      exists reason :: reason != Duplicates.MultipleClaimOwners && RowsSay(f, Duplicate(reason))
    case Blocked => RowsSay(f, Duplicate(Duplicates.MultipleClaimOwners))
    case Ambiguous => RowsSay(f, SeveralSessions)
    case ContextMismatch => RowsSay(f, NoMatch) || RowsSay(f, NoActiveSession)
    case ReconciliationRequired => RowsSay(f, NotContinuable) && f.rows[0].linked
    case _ => false
  }

  /** The status that takes the place of Ready, if one does. */
  ghost predicate Demotes(q: Query, c: Capsule, status: Status) {
    || (status == Unknown && (Because(q, c, MatcherUnavailable) || Because(q, c, VerifierUnavailable)))
    || (Usable(q, c) && RowsDemote(FindingOf(q, c), status))
  }

  predicate HasStatus(contradictory: bool, c: Capsule, o: Outcome, status: Status, demotes: bool) {
    var r := Apply(c, o);
    && (contradictory ==> r == c.(status := TaskSelectorMismatch, why := r.why))
    && (o.Select? ==>
          && r.status == Ready && r.conflict == (if c.status == Ready then None else Some(c.status))
          && r.selected == Some(o.session) && r.basis == Some(o.basis))
    && (!contradictory && !o.Select? && c.status != Ready ==> r.status == c.status && r.conflict.None?)
    && (!contradictory && !o.Select? && c.status == Ready && status != Ready ==>
          (r.status == status && r.conflict == Some(Ready) <==> demotes))
    && (r.selected.Some? <==> o.Select? || c.selected.Some?)
  }

  lemma RowsDemoteTo(f: Finding, o: Outcome, status: Status)
    requires EndsIn(f, o)
    ensures !o.Set? && (o.Demote? ==> o.status != Ready)
    ensures status != Ready ==> (o.Demote? && o.status == status <==> RowsDemote(f, status))
  {
    if f.rows == [] {
    } else if |f.rows| == 1 {
    } else if !f.candidates || !f.checkout {
    } else if f.resolution.Unresolved? {
      assert RowsSay(f, Duplicate(f.resolution.reason));
    }
  }

  /** What an outcome does to the status, given when it demotes. */
  lemma OutcomeHasStatus(contradictory: bool, c: Capsule, o: Outcome, status: Status, demotes: bool)
    requires c.conflict.None? && c.status in {Ready, Ambiguous, ContextConflict}
    requires if contradictory then o == Set(TaskSelectorMismatch, Some(ExactConflictsWithTask)) else !o.Set?
    requires o.Demote? ==> o.status != Ready
    requires !contradictory && status != Ready ==> (o.Demote? && o.status == status <==> demotes)
    ensures HasStatus(contradictory, c, o, status, demotes)
  {
  }

  lemma EarlyDemotesTo(q: Query, c: Capsule, o: Outcome, status: Status)
    requires !Usable(q, c) && EndsEarly(q, c, o)
    ensures if Contradictory(q, c) then o == Set(TaskSelectorMismatch, Some(ExactConflictsWithTask)) else !o.Set?
    ensures o.Demote? ==> o.status != Ready
    ensures !Contradictory(q, c) && status != Ready ==> (o.Demote? && o.status == status <==> Demotes(q, c, status))
  {
    UsableMeans(q, c);
  }

  /** A capsule that selects nothing keeps its status, except that a ready one takes the status of the
      reason and remembers that it was ready, and that a contradictory request always shows. One that
      selects is ready and remembers what it was instead. */
  lemma StatusExactly(q: Query, c: Capsule, status: Status)
    requires c.conflict.None? && c.status in {Ready, Ambiguous, ContextConflict}
    ensures HasStatus(Contradictory(q, c), c, Decide(q, c), status, Demotes(q, c, status))
  {
    UsableExactly(q, c);
    if Usable(q, c) {
      RowsEnd(q, c);
      UsableMeans(q, c);
      RowsDemoteTo(FindingOf(q, c), DecideRows(q, c), status);
    } else {
      UnusableEnds(q, c);
      EarlyDemotesTo(q, c, Decide(q, c), status);
    }
    OutcomeHasStatus(Contradictory(q, c), c, Decide(q, c), status, Demotes(q, c, status));
  }

  // ----- with which basis ---------------------------------------------------------------------

  /** The basis of a row that is alone. */
  ghost predicate BasisOfOne(q: Query, c: Capsule, row: Row, basis: Basis) {
    match basis
    case RootWorktree => q.checkout.Some? && !Matched(q, row)
    case RegisteredCheckout => q.checkout.Some? && Matched(q, row) && forall x :: !Expects(q, c, x)
    case EnvironmentAndCheckout =>
      q.checkout.Some? && Matched(q, row) && c.task.None? && exists x :: Expects(q, c, x)
    case TaskSelector => c.task.Some? && (q.checkout.None? || Matched(q, row))
    case EnvironmentDefinition => c.task.None? && q.checkout.None?
    case _ => false
  }

  /** What a session is selected by. */
  ghost predicate SelectedBy(q: Query, c: Capsule, basis: Basis) {
    if q.exact.Some? then basis == ExactSessionLink
    else if |Survivors(q, c)| == 1 then BasisOfOne(q, c, Survivors(q, c)[0], basis)
    else
      && Resolution(q, c).Chosen?
      && basis == if Resolution(q, c).basis == Duplicates.LiveClaimOwner then LiveClaimOwner else UniqueCheckpoint
  }

  lemma WorktreesAreElsewhere(q: Query, c: Capsule)
    requires |Survivors(q, c)| == 1
    ensures UsesWorktrees(q, c) <==> q.checkout.Some? && !Matched(q, Survivors(q, c)[0])
  {
    var row := Survivors(q, c)[0];
    assert row in Survivors(q, c);
    SurvivorsAreInContext(q, c, row);
    NoneMatches(q, c);
  }

  lemma FirstBasisMeans(q: Query, c: Capsule, row: Row, basis: Basis)
    requires q.exact.None? && (q.checkout.Some? ==> Matched(q, row))
    ensures FirstBasis(q, c) == basis <==> BasisOfOne(q, c, row, basis)
  {
    ExpectsIsSelector(q, c);
    if FinalSelector(q, c).Some? {
      assert Expects(q, c, FinalSelector(q, c).value);
    }
    if c.task.Some? {
      assert Expects(q, c, c.task.value.context);
    }
  }

  lemma OneRowBasis(q: Query, c: Capsule, basis: Basis)
    requires |Survivors(q, c)| == 1 && DecideRows(q, c).Select?
    ensures DecideRows(q, c).basis == basis <==>
              if q.exact.Some? then basis == ExactSessionLink else BasisOfOne(q, c, Survivors(q, c)[0], basis)
  {
    WorktreesAreElsewhere(q, c);
    if q.exact.None? && !UsesWorktrees(q, c) {
      FirstBasisMeans(q, c, Survivors(q, c)[0], basis);
    }
  }

  lemma ManyRowsBasis(q: Query, c: Capsule)
    requires |Survivors(q, c)| != 1 && DecideRows(q, c).Select?
    ensures Resolution(q, c).Chosen?
    ensures DecideRows(q, c).basis ==
              if q.exact.Some? then ExactSessionLink
              else if Resolution(q, c).basis == Duplicates.LiveClaimOwner then LiveClaimOwner
              else UniqueCheckpoint
  {
    RowsEnd(q, c);
    var resolution := Resolution(q, c);
    assert DecideRows(q, c) == DecideRow(q, resolution.row, DuplicateBasis(resolution.basis));
  }

  /** The basis that a selection names is the one that it was made by. */
  lemma BasisExactly(q: Query, c: Capsule, basis: Basis)
    requires Decide(q, c).Select?
    ensures Decide(q, c).basis == basis <==> SelectedBy(q, c, basis)
  {
    UsableExactly(q, c);
    if |Survivors(q, c)| == 1 {
      OneRowBasis(q, c, basis);
    } else {
      ManyRowsBasis(q, c);
    }
  }

  // ----- several campaigns ----------------------------------------------------------------------

  /** The campaign has a session to offer. */
  predicate Offers(c: Capsule) {
    c.status == Ready && c.selected.Some?
  }

  lemma {:induction false} OffersAreReady(capsules: seq<Capsule>, k: nat)
    requires k <= |capsules| && forall j :: 0 <= j < |capsules| && j != k ==> !Offers(capsules[j])
    ensures ReadyOnes(capsules) == if k < |capsules| && Offers(capsules[k]) then [capsules[k]] else []
  {
    if capsules != [] {
      var n := |capsules| - 1;
      OffersAreReady(capsules[..n], if k <= n then k else n);
    }
  }

  /** Of several campaigns the one that offers a session is taken, with all that it says, exactly if it is
      the only one; else nothing is selected, and the reason says whether there are several or none. */
  lemma CampaignsExactly(q: Query, c: Capsule, k: nat)
    requires q.inScope && Clean(c).status == AmbiguousCampaigns && CampaignsAreAll(c) && k <= |c.campaigns|
    requires forall j :: 0 <= j < |c.campaigns| && j != k ==> !Offers(Selected(q, c.campaigns[j]))
    ensures if k < |c.campaigns| && Offers(Selected(q, c.campaigns[k]))
            then Selected(q, c) == Selected(q, c.campaigns[k])
            else && Selected(q, c).status == AmbiguousCampaigns && Selected(q, c).selected.None?
                 && Selected(q, c).why == Some(NoCampaign)
  {
    OffersAreReady(SelectedAll(q, c.campaigns), k);
  }

  lemma SeveralCampaignsSelectNothing(q: Query, c: Capsule, i: nat, j: nat)
    requires q.inScope && Clean(c).status == AmbiguousCampaigns && CampaignsAreAll(c) && i < j < |c.campaigns|
    requires Offers(Selected(q, c.campaigns[i])) && Offers(Selected(q, c.campaigns[j]))
    ensures && Selected(q, c).status == AmbiguousCampaigns && Selected(q, c).selected.None?
            && Selected(q, c).why == Some(SeveralCampaigns)
  {
    TwoReady(SelectedAll(q, c.campaigns), i, j);
  }
}
