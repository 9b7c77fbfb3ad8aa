/** The grant table of `EnvironmentRPCServer` (`issue_grant`, `_grant`, `revoke_grant`,
    `_revoke_owner_session_grants`) and its place in the transition system of Dispatch. */
module Grants {
  import opened Wrappers
  import Dispatch

  type Token = Dispatch.Grant

  /** A process and its start time; the same pid can later be another process. */
  datatype Process = Process(pid: nat, startTicks: string)

  /** `client` is the one process that may use a local grant. */
  datatype GrantRecord = GrantRecord(
    uid: nat, expires: nat, bound: Option<Dispatch.Session>, client: Option<Process>)

  /** The start times that procfs gives. */
  type StartTicks = map<nat, string>

  /** The peer is the client process, and that is still the same execution. */
  predicate IsClient(client: Option<Process>, peer: Option<nat>, ticks: StartTicks) {
    client.Some? ==>
      peer == Some(client.value.pid) && client.value.pid in ticks && ticks[client.value.pid] == client.value.startTicks
  }

  type GrantMap = map<Token, GrantRecord>

  /** The records that `keep` admits. */
  function Unexpired(grants: GrantMap, now: nat): GrantMap {
    map g | g in grants && now < grants[g].expires :: grants[g]
  }

  function Unselected(grants: GrantMap, owner: Dispatch.Session): GrantMap {
    map g | g in grants && grants[g].bound != Some(owner) :: grants[g]
  }

  class GrantTable {
    var grants: GrantMap

    constructor ()
      ensures grants == map[]
    {
      grants := map[];
    }

    /** `_grant`. */
    method Resolve(token: Token, uid: nat, peer: Option<nat>, now: nat, ticks: StartTicks)
      returns (record: Option<GrantRecord>)
      ensures record.Some? <==>
                && token in grants && grants[token].uid == uid && now < grants[token].expires
                && IsClient(grants[token].client, peer, ticks)
      ensures record.Some? ==> record.value == grants[token]
    {
      if token !in grants || grants[token].uid != uid || now >= grants[token].expires {
        return None;
      }
      var client := grants[token].client;
      if client.Some? {
        var pid := client.value.pid;
        if peer != Some(pid) || (if pid in ticks then Some(ticks[pid]) else None) != Some(client.value.startTicks) {
          return None;
        }
      }
      record := Some(grants[token]);
    }

    /** `issue_grant`: a client whose start time cannot be read gets no grant. Otherwise what has expired
        is dropped before the new token is added. */
    method Issue(token: Token, uid: nat, clientPid: Option<nat>, ticks: StartTicks, now: nat, expires: nat)
      returns (issued: bool)
      modifies this
      ensures issued <==> clientPid.Some? ==> clientPid.value in ticks
      ensures !issued ==> grants == old(grants)
      ensures issued ==>
                var client := if clientPid.Some? then Some(Process(clientPid.value, ticks[clientPid.value])) else None;
                grants == Unexpired(old(grants), now)[token := GrantRecord(uid, expires, None, client)]
    {
      var client: Option<Process> := None;
      if clientPid.Some? {
        if clientPid.value !in ticks {
          return false;
        }
        client := Some(Process(clientPid.value, ticks[clientPid.value]));
      }
      var todo := grants.Keys;
      while todo != {}
        invariant todo <= grants.Keys
        invariant forall g :: g in grants <==> g in old(grants) && (g in todo || now < old(grants)[g].expires)
        invariant forall g <- grants :: grants[g] == old(grants)[g]
        decreases |todo|
      {
        var g :| g in todo;
        todo := todo - {g};
        if now >= grants[g].expires {
          grants := grants - {g};
        }
      }
      assert grants == Unexpired(old(grants), now);
      grants := grants[token := GrantRecord(uid, expires, None, client)];
      issued := true;
    }

    method Revoke(token: Token)
      modifies this
      ensures grants == old(grants) - {token}
    {
      grants := grants - {token};
    }

    /** `_revoke_owner_session_grants`: selects under the lock, removes, and counts. */
    method RevokeOwner(owner: Dispatch.Session) returns (count: nat)
      modifies this
      ensures grants == Unselected(old(grants), owner)
      ensures count + |grants| == |old(grants)|
    {
      var todo := grants.Keys;
      count := 0;
      while todo != {}
        invariant todo <= grants.Keys
        invariant forall g :: g in grants <==> g in old(grants) && (g in todo || old(grants)[g].bound != Some(owner))
        invariant forall g <- grants :: grants[g] == old(grants)[g]
        invariant count + |grants| == |old(grants)|
        decreases |todo|
      {
        var g :| g in todo;
        todo := todo - {g};
        if grants[g].bound == Some(owner) {
          assert grants.Keys == (grants - {g}).Keys + {g};
          grants := grants - {g};
          count := count + 1;
        }
      }
      assert grants == Unselected(old(grants), owner);
    }
  }

  /** The table holds the live grants of the state with their selections. */
  predicate Shows(grants: GrantMap, s: Dispatch.State) {
    grants.Keys == s.live && forall g <- grants :: grants[g].bound == Dispatch.BoundOf(s, g)
  }

  /** Revoking in the table is the Revoke step of a recovery. */
  lemma RevocationShows(grants: GrantMap, s: Dispatch.State, t: nat)
    requires Shows(grants, s) && Dispatch.Enabled(s, Dispatch.Revoke(t))
    ensures Shows(Unselected(grants, s.threads[t].owner), Dispatch.Step(s, Dispatch.Revoke(t)))
  {
    var n := Dispatch.Step(s, Dispatch.Revoke(t));
    var left := Unselected(grants, s.threads[t].owner);
    forall g: Token ensures g in left <==> g in n.live {
    }
    assert left.Keys == n.live;
  }

  function Expirations(expired: seq<Token>): seq<Dispatch.Action> {
    seq(|expired|, i requires 0 <= i < |expired| => Dispatch.Expire(expired[i]))
  }

  lemma {:induction false} ExpirationsAre(s: Dispatch.State, expired: seq<Token>)
    ensures Dispatch.After(s, Expirations(expired)) == s.(live := s.live - set g <- expired)
  {
    if expired == [] {
      assert s.live - (set g <- expired) == s.live;
    } else {
      var before, last := expired[..|expired| - 1], expired[|expired| - 1];
      assert expired == before + [last];
      assert Expirations(expired)[..|expired| - 1] == Expirations(before);
      ExpirationsAre(s, before);
      assert s.live - (set g <- before) - {last} == s.live - set g <- expired;
    }
  }

  /** Issuing in the table is a run of Expire steps followed by the Issue step. */
  lemma IssueShows(
      grants: GrantMap, s: Dispatch.State, now: nat, token: Token, record: GrantRecord, expired: seq<Token>)
    requires Shows(grants, s) && token !in s.bound && record.bound == None
    requires forall g :: g in expired <==> g in grants && now >= grants[g].expires
    ensures Shows(Unexpired(grants, now)[token := record],
                  Dispatch.Step(Dispatch.After(s, Expirations(expired)), Dispatch.Issue(token)))
  {
    ExpirationsAre(s, expired);
    var left := Unexpired(grants, now);
    forall g: Token ensures g in left <==> g in s.live && g !in expired {
    }
    assert left.Keys == s.live - set g <- expired;
  }
}
