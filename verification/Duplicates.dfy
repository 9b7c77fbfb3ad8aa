/** Choosing among several sessions on one checkout
    (`_unique_authoritative_same_checkout_session`). */
module Duplicates {
  import opened Wrappers
  import opened Continuations

  datatype Basis = LiveClaimOwner | UniqueCheckpoint

  datatype Reason =
    | CheckoutProjectionIncomplete
    | CheckoutIdentityInvalid
    | ScopeCheckerUnavailable
    | MultipleClaimOwners
    | ClaimProjectionIncomplete
    | CheckpointProjectionIncomplete
    | CheckpointIdentityInvalid

  datatype Resolution = NoChoice | Chosen(row: Row, basis: Basis) | Unresolved(reason: Reason)

  // ----- what the rows say -------------------------------------------------

  function ClaimIds(claims: seq<Claim>): (ids: seq<string>)
    requires forall c <- claims :: c.Claim? && c.id.Some?
    ensures |ids| == |claims|
  {
    if claims == [] then []
    else
      assert claims[0] in claims;
      assert forall c <- claims[1..] :: c in claims;
      [claims[0].id.value] + ClaimIds(claims[1..])
  }

  /** The row projects every claim it names, whole and in any order. */
  predicate ProjectsClaims(row: Row) {
    && row.claimIds.Texts? && row.claims.Some? && !row.claimsTruncated
    && (forall c <- row.claims.value :: c.Claim? && c.id.Some?)
    && multiset(ClaimIds(row.claims.value)) == multiset(row.claimIds.items)
  }

  /** A claim that counts here: held, and on this repository. */
  predicate Relevant(claim: Claim, repository: string) {
    claim.Claim? && claim.held && claim.repository == repository
  }

  predicate ClaimOverlaps(claim: Claim, repository: string, checker: Checker) {
    Relevant(claim, repository) && claim.scope.Some? && checker(claim.scope.value) == Conflicts
  }

  predicate ClaimUnclear(claim: Claim, repository: string, checker: Checker) {
    Relevant(claim, repository) && (claim.scope.None? || checker(claim.scope.value) == Raises)
  }

  /** The row holds a live claim that overlaps the checkout. */
  predicate OwnsClaim(row: Row, repository: string, checker: Checker) {
    ProjectsClaims(row) && exists c <- row.claims.value :: ClaimOverlaps(c, repository, checker)
  }

  /** The row's claims cannot be judged. */
  predicate ClaimsUnclear(row: Row, repository: string, checker: Checker) {
    !ProjectsClaims(row) || exists c <- row.claims.value :: ClaimUnclear(c, repository, checker)
  }

  predicate ValidCheckpoint(row: Row) {
    && row.latest.Checkpoint? && row.latest.identity.Some?
    && row.latest.sequence.Some? && row.latest.sequence.value >= 1
    && (row.checkpointIds.Absent?
        || (row.checkpointIds.Texts? && row.latest.identity.value in row.checkpointIds.items))
  }

  predicate KnownWithoutCheckpoint(row: Row) {
    row.latest.NoCheckpoint? && row.checkpointIds == Texts([])
  }

  /** The checkpoint projection settles whether the row has a valid checkpoint. */
  predicate CheckpointClear(row: Row) {
    ValidCheckpoint(row) || KnownWithoutCheckpoint(row)
  }

  // ----- the choice --------------------------------------------------------

  /** Several rows, one context, and distinct session identities. */
  predicate Comparable(rows: seq<Row>) {
    && |rows| >= 2
    && (forall row <- rows :: row.session.Some? && row.context == rows[0].context)
    && (forall i, j :: 0 <= i < j < |rows| ==> rows[i].session != rows[j].session)
  }

  /** All rows sit on one checkout of the repository. */
  ghost predicate OnOneCheckout(rows: seq<Row>, checkouts: map<SessionId, Checkout>, repository: string) {
    exists checkout: Checkout ::
      && checkout.repository == repository && checkout.path.Some?
      && forall row <- rows :: row.session.Some? && row.session.value in checkouts
                               && checkouts[row.session.value] == checkout
  }

  ghost predicate SoleClaimOwner(rows: seq<Row>, row: Row, repository: string, checker: Checker) {
    && row in rows && OwnsClaim(row, repository, checker)
    && forall other <- rows :: OwnsClaim(other, repository, checker) ==> other == row
  }

  ghost predicate SoleCheckpoint(rows: seq<Row>, row: Row) {
    row in rows && ValidCheckpoint(row) && forall other <- rows :: ValidCheckpoint(other) ==> other == row
  }

  /** A row is chosen as the sole holder of an overlapping held claim or, with no such holder, as
      the sole one with a valid checkpoint; never from an unclear projection. */
  ghost predicate Decides(rows: seq<Row>, repository: string, checker: Checker, row: Row, basis: Basis) {
    && (forall other <- rows :: !ClaimsUnclear(other, repository, checker))
    && if basis == LiveClaimOwner then SoleClaimOwner(rows, row, repository, checker)
       else
         && (forall other <- rows :: !OwnsClaim(other, repository, checker))
         && (forall other <- rows :: CheckpointClear(other))
         && SoleCheckpoint(rows, row)
  }

  /** Everything a choice needs. */
  ghost predicate Justified(
      rows: seq<Row>, repository: string, checkouts: map<SessionId, Checkout>,
      checker: Option<Checker>, row: Row, basis: Basis)
  {
    && Comparable(rows) && OnOneCheckout(rows, checkouts, repository) && checker.Some?
    && Decides(rows, repository, checker.value, row, basis)
  }

  /** The loop over one row's claims. */
  method JudgeClaims(row: Row, repository: string, checker: Checker) returns (owns: bool, unclear: bool)
    ensures owns == OwnsClaim(row, repository, checker)
    ensures unclear == ClaimsUnclear(row, repository, checker)
  {
    if !ProjectsClaims(row) {
      return false, true;
    }
    owns, unclear := false, false;
    var claims := row.claims.value;
    for k := 0 to |claims|
      invariant owns == exists j :: 0 <= j < k && ClaimOverlaps(claims[j], repository, checker)
      invariant unclear == exists j :: 0 <= j < k && ClaimUnclear(claims[j], repository, checker)
    {
      var claim := claims[k];
      if Relevant(claim, repository) {
        if claim.scope.None? {
          unclear := true;
        } else {
          match checker(claim.scope.value) {
            case Conflicts => owns := true;
            case Disjoint =>
            case Raises => unclear := true;
          }
        }
      }
    }
  }

  // ----- the verdict, in the order in which the code reaches it ---------------

  /** The rows that hold an overlapping claim, in row order. */
  function Owners(rows: seq<Row>, repository: string, checker: Checker): seq<Row> {
    if rows == [] then []
    else
      var before, last := Owners(rows[..|rows| - 1], repository, checker), rows[|rows| - 1];
      if OwnsClaim(last, repository, checker) then before + [last] else before
  }

  /** The rows with a valid checkpoint, in row order. */
  function Checkpointed(rows: seq<Row>): seq<Row> {
    if rows == [] then []
    else
      var before, last := Checkpointed(rows[..|rows| - 1]), rows[|rows| - 1];
      if ValidCheckpoint(last) then before + [last] else before
  }

  /** Why the first row with an unsettled checkpoint projection is unsettled. */
  function FirstUnsettled(rows: seq<Row>): (r: Option<Reason>)
    ensures r.None? <==> forall row <- rows :: CheckpointClear(row)
  {
    if rows == [] then None
    else if !CheckpointClear(rows[0]) then
      assert rows[0] in rows;
      Some(if rows[0].latest.NoCheckpoint? then CheckpointProjectionIncomplete else CheckpointIdentityInvalid)
    else
      assert forall row <- rows :: row == rows[0] || row in rows[1..];
      FirstUnsettled(rows[1..])
  }

  predicate AllClear(rows: seq<Row>, repository: string, checker: Checker) {
    forall row <- rows :: !ClaimsUnclear(row, repository, checker)
  }

  /** Competing owners come first, then unclear claims, a sole owner, and last the checkpoints. */
  function Verdict(rows: seq<Row>, repository: string, checker: Checker): Resolution {
    var owners, candidates := Owners(rows, repository, checker), Checkpointed(rows);
    if |owners| > 1 then Unresolved(MultipleClaimOwners)
    else if !AllClear(rows, repository, checker) then Unresolved(ClaimProjectionIncomplete)
    else if |owners| == 1 then Chosen(owners[0], LiveClaimOwner)
    else if FirstUnsettled(rows).Some? then Unresolved(FirstUnsettled(rows).value)
    else if |candidates| == 1 then Chosen(candidates[0], UniqueCheckpoint)
    else NoChoice
  }

  /** `Verdict`, once the rows are known to share one checkout of the repository. */
  function Resolved(
      rows: seq<Row>, repository: string, checkouts: map<SessionId, Checkout>, checker: Option<Checker>)
    : Resolution
  {
    if !Comparable(rows) then NoChoice
    else if exists row <- rows :: row.session.value !in checkouts then Unresolved(CheckoutProjectionIncomplete)
    else
      var checkout := checkouts[rows[0].session.value];
      if exists row <- rows :: checkouts[row.session.value] != checkout then NoChoice
      else if checkout.repository != repository || checkout.path.None? then Unresolved(CheckoutIdentityInvalid)
      else if checker.None? then Unresolved(ScopeCheckerUnavailable)
      else Verdict(rows, repository, checker.value)
  }

  /** The loop over the rows' claims. */
  method ClaimOwners(rows: seq<Row>, repository: string, checker: Checker)
    returns (owners: seq<Row>, unclear: bool)
    ensures owners == Owners(rows, repository, checker)
    ensures unclear == !AllClear(rows, repository, checker)
  {
    owners, unclear := [], false;
    for k := 0 to |rows|
      invariant owners == Owners(rows[..k], repository, checker)
      invariant unclear == exists j :: 0 <= j < k && ClaimsUnclear(rows[j], repository, checker)
    {
      assert rows[..k + 1][..k] == rows[..k];
      var owns, rowUnclear := JudgeClaims(rows[k], repository, checker);
      if owns {
        owners := owners + [rows[k]];
      }
      unclear := unclear || rowUnclear;
    }
    assert rows[..|rows|] == rows;
  }

  /** The loop over the rows' checkpoints; it gives up at the first projection that does not settle
      the question. */
  method CheckpointOwners(rows: seq<Row>) returns (owners: seq<Row>, failure: Option<Reason>)
    ensures failure == FirstUnsettled(rows)
    ensures failure.None? ==> owners == Checkpointed(rows)
  {
    owners, failure := [], None;
    for k := 0 to |rows|
      invariant FirstUnsettled(rows) == FirstUnsettled(rows[k..])
      invariant owners == Checkpointed(rows[..k])
    {
      var row := rows[k];
      assert rows[k..][1..] == rows[k + 1..];
      assert rows[..k + 1][..k] == rows[..k];
      if row.latest.NoCheckpoint? {
        if row.checkpointIds != Texts([]) {
          return owners, Some(CheckpointProjectionIncomplete);
        }
        continue;
      }
      if !ValidCheckpoint(row) {
        return owners, Some(CheckpointIdentityInvalid);
      }
      owners := owners + [row];
    }
    assert rows[..|rows|] == rows;
  }

  method Resolve(
      rows: seq<Row>, repository: string, checkouts: map<SessionId, Checkout>, checker: Option<Checker>)
    returns (r: Resolution)
    ensures r == Resolved(rows, repository, checkouts, checker)
  {
    if !Comparable(rows) {
      return NoChoice;
    }
    if exists row <- rows :: row.session.value !in checkouts {
      return Unresolved(CheckoutProjectionIncomplete);
    }
    assert rows[0] in rows;
    var checkout := checkouts[rows[0].session.value];
    if exists row <- rows :: checkouts[row.session.value] != checkout {
      return NoChoice;
    }
    if checkout.repository != repository || checkout.path.None? {
      return Unresolved(CheckoutIdentityInvalid);
    }
    if checker.None? {
      return Unresolved(ScopeCheckerUnavailable);
    }
    var owners, unclear := ClaimOwners(rows, repository, checker.value);
    if |owners| > 1 {
      return Unresolved(MultipleClaimOwners);
    }
    if unclear {
      return Unresolved(ClaimProjectionIncomplete);
    }
    if |owners| == 1 {
      return Chosen(owners[0], LiveClaimOwner);
    }
    var candidates, bad := CheckpointOwners(rows);
    if bad.Some? {
      return Unresolved(bad.value);
    }
    return if |candidates| == 1 then Chosen(candidates[0], UniqueCheckpoint) else NoChoice;
  }

  // ----- what the verdict means ----------------------------------------------

  lemma {:induction false} OwnersAreMembers(rows: seq<Row>, repository: string, checker: Checker)
    ensures forall row :: row in Owners(rows, repository, checker) <==>
                            row in rows && OwnsClaim(row, repository, checker)
    ensures |Owners(rows, repository, checker)| <= |rows|
    ensures Distinct(rows) ==> Distinct(Owners(rows, repository, checker))
  {
    if rows != [] {
      var before, last := rows[..|rows| - 1], rows[|rows| - 1];
      assert rows == before + [last];
      OwnersAreMembers(before, repository, checker);
    }
  }

  lemma {:induction false} CheckpointedAreMembers(rows: seq<Row>)
    ensures forall row :: row in Checkpointed(rows) <==> row in rows && ValidCheckpoint(row)
    ensures |Checkpointed(rows)| <= |rows|
    ensures Distinct(rows) ==> Distinct(Checkpointed(rows))
  {
    if rows != [] {
      var before, last := rows[..|rows| - 1], rows[|rows| - 1];
      assert rows == before + [last];
      CheckpointedAreMembers(before);
    }
  }

  predicate Distinct(rows: seq<Row>) {
    forall i, j :: 0 <= i < j < |rows| ==> rows[i] != rows[j]
  }

  /** In a list of distinct rows, having exactly one member and being that member is the same. */
  lemma OneMember(members: seq<Row>, row: Row)
    requires Distinct(members)
    ensures |members| == 1 && members[0] == row <==> row in members && forall other <- members :: other == row
  {
    if row in members && forall other <- members :: other == row {
      assert |members| > 1 ==> members[0] in members && members[1] in members;
    }
  }

  lemma OwnersDecide(rows: seq<Row>, repository: string, checker: Checker, row: Row)
    requires Distinct(rows)
    ensures var owners := Owners(rows, repository, checker);
            && (SoleClaimOwner(rows, row, repository, checker) <==> |owners| == 1 && owners[0] == row)
            && (|owners| > 0 <==> exists other <- rows :: OwnsClaim(other, repository, checker))
  {
    OwnersAreMembers(rows, repository, checker);
    var owners := Owners(rows, repository, checker);
    OneMember(owners, row);
    assert |owners| > 0 ==> owners[0] in owners;
    assert SoleClaimOwner(rows, row, repository, checker) <==>
           row in owners && forall other <- owners :: other == row;
  }

  lemma CheckpointsDecide(rows: seq<Row>, row: Row)
    requires Distinct(rows)
    ensures var candidates := Checkpointed(rows);
            SoleCheckpoint(rows, row) <==> |candidates| == 1 && candidates[0] == row
  {
    CheckpointedAreMembers(rows);
    OneMember(Checkpointed(rows), row);
    assert SoleCheckpoint(rows, row) <==>
           row in Checkpointed(rows) && forall other <- Checkpointed(rows) :: other == row;
  }

  lemma VerdictDecides(rows: seq<Row>, repository: string, checker: Checker, row: Row, basis: Basis)
    requires Comparable(rows)
    ensures Verdict(rows, repository, checker) == Chosen(row, basis)
       <==> Decides(rows, repository, checker, row, basis)
  {
    OwnersDecide(rows, repository, checker, row);
    CheckpointsDecide(rows, row);
  }

  /** A session is chosen exactly when the choice is justified. */
  lemma ChoiceIsJustified(
      rows: seq<Row>, repository: string, checkouts: map<SessionId, Checkout>, checker: Option<Checker>,
      row: Row, basis: Basis)
    ensures Resolved(rows, repository, checkouts, checker) == Chosen(row, basis)
       <==> Justified(rows, repository, checkouts, checker, row, basis)
  {
    if Comparable(rows) {
      assert rows[0] in rows;
      if OnOneCheckout(rows, checkouts, repository) && checker.Some? {
        VerdictDecides(rows, repository, checker.value, row, basis);
      }
    }
  }

  // ----- order -------------------------------------------------------------

  lemma SameMembers(rows: seq<Row>, other: seq<Row>)
    requires multiset(rows) == multiset(other)
    ensures forall row :: row in rows <==> row in other
    ensures |rows| == |other|
  {
    assert forall row :: row in rows <==> row in multiset(rows);
    assert |multiset(rows)| == |rows| && |multiset(other)| == |other|;
  }

  lemma ComparableInAnyOrder(rows: seq<Row>, other: seq<Row>)
    requires multiset(rows) == multiset(other) && Comparable(rows)
    ensures Comparable(other)
  {
    SameMembers(rows, other);
    forall i, j | 0 <= i < j < |other| ensures other[i].session != other[j].session {
      if other[i].session == other[j].session {
        TwiceMeansTwice(other, i, j);
        assert multiset(rows)[other[i]] >= 1;
        DistinctMeansOnce(rows, other[i], other[j]);
      }
    }
  }

  lemma DistinctMeansOnce(rows: seq<Row>, a: Row, b: Row)
    requires forall i, j :: 0 <= i < j < |rows| ==> rows[i].session != rows[j].session
    requires a in rows && b in rows && a.session == b.session
    ensures a == b && multiset(rows)[a] == 1
  {
    var k :| 0 <= k < |rows| && rows[k] == a;
    assert rows == rows[..k] + [a] + rows[k + 1..];
    assert a !in rows[..k] && a !in rows[k + 1..];
    assert multiset(rows) == multiset(rows[..k]) + multiset{a} + multiset(rows[k + 1..]);
  }

  lemma TwiceMeansTwice(rows: seq<Row>, i: nat, j: nat)
    requires i < j < |rows|
    ensures rows[i] == rows[j] ==> multiset(rows)[rows[i]] >= 2
    ensures rows[j] in multiset(rows)
  {
    assert rows == rows[..j] + rows[j..];
    assert multiset(rows) == multiset(rows[..j]) + multiset(rows[j..]);
    assert rows[i] in rows[..j] && rows[j] in rows[j..];
  }

  /** The chosen session and its basis do not depend on the order of the rows. */
  lemma OrderDoesNotMatter(
      rows: seq<Row>, other: seq<Row>, repository: string, checkouts: map<SessionId, Checkout>,
      checker: Option<Checker>, row: Row, basis: Basis)
    requires multiset(rows) == multiset(other)
    requires Justified(rows, repository, checkouts, checker, row, basis)
    ensures Justified(other, repository, checkouts, checker, row, basis)
  {
    SameMembers(rows, other);
    ComparableInAnyOrder(rows, other);
  }

  /** There is never a second choice. */
  lemma ChoiceIsUnique(
      rows: seq<Row>, repository: string, checkouts: map<SessionId, Checkout>, checker: Option<Checker>,
      row: Row, basis: Basis, row': Row, basis': Basis)
    requires Justified(rows, repository, checkouts, checker, row, basis)
    requires Justified(rows, repository, checkouts, checker, row', basis')
    ensures row == row' && basis == basis'
  {
    assert row in rows && row' in rows;
  }
}
