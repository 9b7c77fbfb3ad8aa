/** What the duplicate resolver decides, said of the rows alone: which row it chooses, and what each of its
    reasons means. */
module DuplicatesMeaning {
  import opened Wrappers
  import opened Continuations
  import opened Duplicates

  // ----- what a row says ---------------------------------------------------------------

  function Times(texts: seq<string>, text: string): nat {
    if texts == [] then 0 else (if texts[0] == text then 1 else 0) + Times(texts[1..], text)
  }

  function ClaimTimes(claims: seq<Claim>, id: string): nat {
    if claims == [] then 0
    else (if claims[0].Claim? && claims[0].id == Some(id) then 1 else 0) + ClaimTimes(claims[1..], id)
  }

  /** The row lists all its claims, each with an id, and names every id as often as it lists it. */
  ghost predicate NamesItsClaims(row: Row) {
    && row.claimIds.Texts? && row.claims.Some? && !row.claimsTruncated
    && (forall c <- row.claims.value :: c.Claim? && c.id.Some?)
    && forall id :: ClaimTimes(row.claims.value, id) == Times(row.claimIds.items, id)
  }

  /** A held claim on the repository conflicts with the checkout. */
  ghost predicate Overlaps(row: Row, repository: string, checker: Checker) {
    row.claims.Some? && exists c <- row.claims.value ::
      c.Claim? && c.held && c.repository == repository && c.scope.Some? && checker(c.scope.value) == Conflicts
  }

  /** Whether a held claim on the repository conflicts cannot be told. */
  ghost predicate Unsure(row: Row, repository: string, checker: Checker) {
    row.claims.Some? && exists c <- row.claims.value ::
      && c.Claim? && c.held && c.repository == repository
      && (c.scope.None? || checker(c.scope.value) == Raises)
  }

  /** A checkpoint with an identity and a positive sequence, listed if checkpoints are listed. */
  predicate HasCheckpoint(row: Row) {
    match row.latest
    case Checkpoint(Some(identity), Some(sequence)) =>
      sequence > 0 && (row.checkpointIds == Absent || (row.checkpointIds.Texts? && identity in row.checkpointIds.items))
    case _ => false
  }

  predicate HasNoCheckpoint(row: Row) {
    row.latest == NoCheckpoint && row.checkpointIds == Texts([])
  }

  lemma {:induction false} TimesIsCount(texts: seq<string>, text: string)
    ensures Times(texts, text) == multiset(texts)[text]
  {
    if texts != [] {
      TimesIsCount(texts[1..], text);
      assert texts == [texts[0]] + texts[1..];
    }
  }

  lemma {:induction false} ClaimTimesAreTimes(claims: seq<Claim>, id: string)
    requires forall c <- claims :: c.Claim? && c.id.Some?
    ensures ClaimTimes(claims, id) == Times(ClaimIds(claims), id)
  {
    if claims != [] {
      assert claims[0] in claims && forall c <- claims[1..] :: c in claims;
      ClaimTimesAreTimes(claims[1..], id);
    }
  }

  lemma NamesExactly(row: Row)
    ensures NamesItsClaims(row) <==> ProjectsClaims(row)
  {
    if row.claimIds.Texts? && row.claims.Some? && forall c <- row.claims.value :: c.Claim? && c.id.Some? {
      forall id
        ensures ClaimTimes(row.claims.value, id) == multiset(ClaimIds(row.claims.value))[id]
        ensures Times(row.claimIds.items, id) == multiset(row.claimIds.items)[id]
      {
        ClaimTimesAreTimes(row.claims.value, id);
        TimesIsCount(ClaimIds(row.claims.value), id);
        TimesIsCount(row.claimIds.items, id);
      }
      if NamesItsClaims(row) {
        assert multiset(ClaimIds(row.claims.value)) == multiset(row.claimIds.items);
      }
    }
  }

  lemma ClaimsMean(row: Row, repository: string, checker: Checker)
    ensures OwnsClaim(row, repository, checker) <==> NamesItsClaims(row) && Overlaps(row, repository, checker)
    ensures ClaimsUnclear(row, repository, checker) <==> !NamesItsClaims(row) || Unsure(row, repository, checker)
  {
    NamesExactly(row);
    if ProjectsClaims(row) {
      forall c <- row.claims.value
        ensures ClaimOverlaps(c, repository, checker) <==>
                  c.held && c.repository == repository && c.scope.Some? && checker(c.scope.value) == Conflicts
        ensures ClaimUnclear(c, repository, checker) <==>
                  c.held && c.repository == repository && (c.scope.None? || checker(c.scope.value) == Raises)
      {
      }
    }
  }

  lemma CheckpointsMean(row: Row)
    ensures ValidCheckpoint(row) <==> HasCheckpoint(row)
    ensures CheckpointClear(row) <==> HasCheckpoint(row) || HasNoCheckpoint(row)
  {
  }

  // ----- the choice ------------------------------------------------------------------------

  /** At least two rows of one context with sessions of their own. */
  predicate AreDuplicates(rows: seq<Row>) {
    && |rows| > 1
    && (forall row <- rows :: row.session.Some?)
    && (forall i, j :: 0 <= i < j < |rows| ==>
          rows[i].context == rows[j].context && rows[i].session.value != rows[j].session.value)
  }

  lemma DuplicatesExactly(rows: seq<Row>)
    ensures AreDuplicates(rows) <==> Comparable(rows)
  {
    if Comparable(rows) {
      forall i, j | 0 <= i < j < |rows|
        ensures rows[i].context == rows[j].context && rows[i].session.value != rows[j].session.value
      {
        assert rows[i] in rows && rows[j] in rows;
      }
    }
    if AreDuplicates(rows) {
      forall row <- rows ensures row.session.Some? && row.context == rows[0].context {
        var k :| 0 <= k < |rows| && rows[k] == row;
      }
    }
  }

  /** The row is the only one with a conflicting held claim or, where none has one, the only one with a
      checkpoint, and all rows can be judged. */
  ghost predicate Authoritative(rows: seq<Row>, repository: string, checker: Checker, row: Row, basis: Basis) {
    && row in rows
    && (forall other <- rows :: NamesItsClaims(other) && !Unsure(other, repository, checker))
    && match basis
       case LiveClaimOwner =>
         && Overlaps(row, repository, checker)
         && forall other <- rows :: Overlaps(other, repository, checker) ==> other == row
       case UniqueCheckpoint =>
         && HasCheckpoint(row) && (forall other <- rows :: HasCheckpoint(other) ==> other == row)
         && (forall other <- rows :: HasCheckpoint(other) || HasNoCheckpoint(other))
         && forall other <- rows :: !Overlaps(other, repository, checker)
  }

  lemma DecidesExactly(rows: seq<Row>, repository: string, checker: Checker, row: Row, basis: Basis)
    ensures Decides(rows, repository, checker, row, basis) <==> Authoritative(rows, repository, checker, row, basis)
  {
    forall other <- rows
      ensures OwnsClaim(other, repository, checker) <==>
                NamesItsClaims(other) && Overlaps(other, repository, checker)
      ensures ClaimsUnclear(other, repository, checker) <==>
                !NamesItsClaims(other) || Unsure(other, repository, checker)
      ensures ValidCheckpoint(other) <==> HasCheckpoint(other)
      ensures CheckpointClear(other) <==> HasCheckpoint(other) || HasNoCheckpoint(other)
    {
      ClaimsMean(other, repository, checker);
      CheckpointsMean(other);
    }
  }

  /** A row is chosen exactly if the rows are duplicates on one checkout of the repository, claims can be
      checked, and it is the authoritative one. */
  lemma ChosenExactly(
      rows: seq<Row>, repository: string, checkouts: map<SessionId, Checkout>, checker: Option<Checker>,
      row: Row, basis: Basis)
    ensures Resolved(rows, repository, checkouts, checker) == Chosen(row, basis)
       <==> && AreDuplicates(rows) && OnOneCheckout(rows, checkouts, repository) && checker.Some?
            && Authoritative(rows, repository, checker.value, row, basis)
  {
    ChoiceIsJustified(rows, repository, checkouts, checker, row, basis);
    DuplicatesExactly(rows);
    if checker.Some? {
      DecidesExactly(rows, repository, checker.value, row, basis);
    }
  }

  // ----- the reasons -------------------------------------------------------------------------

  /** All rows are at the checkout. */
  predicate AllAt(rows: seq<Row>, checkouts: map<SessionId, Checkout>, checkout: Checkout) {
    forall row <- rows ::
      row.session.Some? && row.session.value in checkouts && checkouts[row.session.value] == checkout
  }

  /** Two rows hold a conflicting claim each. */
  ghost predicate Compete(rows: seq<Row>, repository: string, checker: Checker) {
    exists i, j :: 0 <= i < j < |rows|
                   && Contends(rows, repository, checker, i) && Contends(rows, repository, checker, j)
  }

  ghost predicate Contends(rows: seq<Row>, repository: string, checker: Checker, i: int)
    requires 0 <= i < |rows|
  {
    NamesItsClaims(rows[i]) && Overlaps(rows[i], repository, checker)
  }

  /** The first row whose checkpoints do not settle the question is the `k`-th. */
  predicate FirstUnsettledAt(rows: seq<Row>, k: int)
    requires 0 <= k < |rows|
  {
    && !HasCheckpoint(rows[k]) && !HasNoCheckpoint(rows[k])
    && forall j :: 0 <= j < k ==> HasCheckpoint(rows[j]) || HasNoCheckpoint(rows[j])
  }

  ghost predicate ClaimsSettleNothing(rows: seq<Row>, repository: string, checker: Checker) {
    forall row <- rows ::
      NamesItsClaims(row) && !Unsure(row, repository, checker) && !Overlaps(row, repository, checker)
  }

  /** What each reason says of the rows at one checkout. */
  ghost predicate Says(rows: seq<Row>, repository: string, checker: Checker, reason: Reason) {
    match reason
    case MultipleClaimOwners => Compete(rows, repository, checker)
    case ClaimProjectionIncomplete =>
      && !Compete(rows, repository, checker)
      && exists row <- rows :: !NamesItsClaims(row) || Unsure(row, repository, checker)
    case CheckpointProjectionIncomplete =>
      && ClaimsSettleNothing(rows, repository, checker)
      && exists k :: 0 <= k < |rows| && FirstUnsettledAt(rows, k) && rows[k].latest == NoCheckpoint
    case CheckpointIdentityInvalid =>
      && ClaimsSettleNothing(rows, repository, checker)
      && exists k :: 0 <= k < |rows| && FirstUnsettledAt(rows, k) && rows[k].latest != NoCheckpoint
    case _ => false
  }

  lemma OwnersContend(rows: seq<Row>, repository: string, checker: Checker)
    ensures |Owners(rows, repository, checker)| > 0 <==>
              exists i :: 0 <= i < |rows| && Contends(rows, repository, checker, i)
  {
    OwnersAreMembers(rows, repository, checker);
    var owners := Owners(rows, repository, checker);
    if owners != [] {
      assert owners[0] in owners;
      var i :| 0 <= i < |rows| && rows[i] == owners[0];
      ClaimsMean(rows[i], repository, checker);
      assert Contends(rows, repository, checker, i);
    }
    if i :| 0 <= i < |rows| && Contends(rows, repository, checker, i) {
      ClaimsMean(rows[i], repository, checker);
      assert rows[i] in owners;
    }
  }

  lemma ContendBefore(rows: seq<Row>, n: nat, repository: string, checker: Checker)
    requires n < |rows|
    ensures forall i :: 0 <= i < n ==>
              (Contends(rows[..n], repository, checker, i) <==> Contends(rows, repository, checker, i))
  {
  }

  lemma {:induction false} OwnersCompete(rows: seq<Row>, repository: string, checker: Checker)
    ensures |Owners(rows, repository, checker)| > 1 <==> Compete(rows, repository, checker)
  {
    if rows != [] {
      var n := |rows| - 1;
      OwnersCompete(rows[..n], repository, checker);
      OwnersContend(rows[..n], repository, checker);
      ContendBefore(rows, n, repository, checker);
      ClaimsMean(rows[n], repository, checker);
      assert Contends(rows, repository, checker, n) <==> OwnsClaim(rows[n], repository, checker);
      assert Compete(rows, repository, checker) <==>
             || Compete(rows[..n], repository, checker)
             || (Contends(rows, repository, checker, n)
                 && exists i :: 0 <= i < n && Contends(rows[..n], repository, checker, i));
    }
  }

  lemma {:induction false} FirstUnsettledIs(rows: seq<Row>, k: nat)
    requires k < |rows| && FirstUnsettledAt(rows, k)
    ensures FirstUnsettled(rows) ==
              Some(if rows[k].latest == NoCheckpoint then CheckpointProjectionIncomplete else CheckpointIdentityInvalid)
  {
    CheckpointsMean(rows[0]);
    if k > 0 {
      assert rows[1..][k - 1] == rows[k];
      forall j | 0 <= j < k - 1 ensures HasCheckpoint(rows[1..][j]) || HasNoCheckpoint(rows[1..][j]) {
        assert rows[1..][j] == rows[j + 1];
      }
      FirstUnsettledIs(rows[1..], k - 1);
    }
  }

  lemma {:induction false} SomeIsFirst(rows: seq<Row>) returns (k: nat)
    requires exists row <- rows :: !HasCheckpoint(row) && !HasNoCheckpoint(row)
    ensures k < |rows| && FirstUnsettledAt(rows, k)
  {
    k := 0;
    if HasCheckpoint(rows[0]) || HasNoCheckpoint(rows[0]) {
      assert forall row <- rows :: row == rows[0] || row in rows[1..];
      k := SomeIsFirst(rows[1..]);
      assert forall j :: 0 < j < |rows| ==> rows[j] == rows[1..][j - 1];
      k := k + 1;
    }
  }

  lemma UnsettledExactly(rows: seq<Row>, reason: Reason)
    ensures FirstUnsettled(rows) == Some(reason) <==>
              exists k :: 0 <= k < |rows| && FirstUnsettledAt(rows, k)
                          && reason == (if rows[k].latest == NoCheckpoint then CheckpointProjectionIncomplete
                                        else CheckpointIdentityInvalid)
  {
    forall row <- rows ensures CheckpointClear(row) <==> HasCheckpoint(row) || HasNoCheckpoint(row) {
      CheckpointsMean(row);
    }
    if FirstUnsettled(rows).Some? {
      var k := SomeIsFirst(rows);
      FirstUnsettledIs(rows, k);
    }
    forall k: nat | k < |rows| && FirstUnsettledAt(rows, k)
      ensures FirstUnsettled(rows) == Some(if rows[k].latest == NoCheckpoint then CheckpointProjectionIncomplete
                                           else CheckpointIdentityInvalid)
    {
      FirstUnsettledIs(rows, k);
    }
  }

  lemma VerdictSays(rows: seq<Row>, repository: string, checker: Checker, reason: Reason)
    ensures Verdict(rows, repository, checker) == Unresolved(reason) <==> Says(rows, repository, checker, reason)
  {
    OwnersCompete(rows, repository, checker);
    UnsettledExactly(rows, reason);
    SettlesNothing(rows, repository, checker);
  }

  lemma SettlesNothing(rows: seq<Row>, repository: string, checker: Checker)
    ensures ClaimsSettleNothing(rows, repository, checker) <==>
              AllClear(rows, repository, checker) && |Owners(rows, repository, checker)| == 0
    ensures AllClear(rows, repository, checker) <==>
              forall row <- rows :: NamesItsClaims(row) && !Unsure(row, repository, checker)
  {
    OwnersContend(rows, repository, checker);
    forall row <- rows
      ensures ClaimsUnclear(row, repository, checker) <==> !NamesItsClaims(row) || Unsure(row, repository, checker)
    {
      ClaimsMean(row, repository, checker);
    }
    if i :| 0 <= i < |rows| && Contends(rows, repository, checker, i) {
      assert rows[i] in rows;
    }
    if AllClear(rows, repository, checker) && !ClaimsSettleNothing(rows, repository, checker) {
      var row :| row in rows && Overlaps(row, repository, checker);
      var i :| 0 <= i < |rows| && rows[i] == row;
      assert Contends(rows, repository, checker, i);
    }
  }

  /** The resolver gives a reason exactly if it is so: checkouts unknown or not this repository's, no way to
      check claims, or what the claims and checkpoints of the rows say. */
  lemma ReasonsExactly(
      rows: seq<Row>, repository: string, checkouts: map<SessionId, Checkout>, checker: Option<Checker>,
      reason: Reason)
    ensures Resolved(rows, repository, checkouts, checker) == Unresolved(reason) <==>
      && AreDuplicates(rows)
      && match reason
         case CheckoutProjectionIncomplete => exists row <- rows :: row.session.value !in checkouts
         case CheckoutIdentityInvalid =>
           exists checkout :: AllAt(rows, checkouts, checkout)
                              && (checkout.repository != repository || checkout.path.None?)
         case ScopeCheckerUnavailable => OnOneCheckout(rows, checkouts, repository) && checker.None?
         case _ =>
           && OnOneCheckout(rows, checkouts, repository) && checker.Some?
           && Says(rows, repository, checker.value, reason)
  {
    DuplicatesExactly(rows);
    if AreDuplicates(rows) {
      assert rows[0] in rows;
      if forall row <- rows :: row.session.value in checkouts {
        var first := checkouts[rows[0].session.value];
        assert AllAt(rows, checkouts, first) <==> forall row <- rows :: checkouts[row.session.value] == first;
      }
    }
    if checker.Some? {
      VerdictSays(rows, repository, checker.value, reason);
    }
  }
}
