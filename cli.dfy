/** The command's workflow: resolve the team, create it when it is missing and
    the user agrees, then invite the members. The four module-level variables
    of the program form the team record, kept here as the fields of class
    Workflow; every REST call the program makes is appended to the trace `calls`.
    Remote responses and prompt answers are parameters. */
module Cli {
  import opened Remote
  import opened Inviter

  /** The value of the team record. */
  datatype TeamRecord = TeamRecord(teamExists: bool, teamId: int, teamUrl: Option<string>, teamSlug: Option<string>)

  /** The record before anything is resolved. */
  const Unresolved := TeamRecord(false, 0, None, None)

  /** The record describing a known team. */
  function Known(id: int, htmlUrl: string, slug: string): TeamRecord {
    TeamRecord(true, id, Some(htmlUrl), Some(slug))
  }

  /** The one consistency rule of the record: the team is known exactly when
      its url and slug are filled in, and an unknown team leaves every other
      field at its initial value. */
  predicate Consistent(r: TeamRecord) {
    if r.teamExists then r.teamUrl.Some? && r.teamSlug.Some? else r == Unresolved
  }

  /** JavaScript's `length` of a string: the number of UTF-16 code units,
      two for every character outside the Basic Multilingual Plane. */
  function Utf16Length(s: string): (n: nat)
    ensures |s| <= n <= 2 * |s|
    ensures n == |s| <==> forall k :: 0 <= k < |s| ==> s[k] < '\U{10000}'
  {
    if s == [] then 0
    else
      assert forall k :: 1 <= k < |s| ==> s[k] == s[1..][k - 1];
      (if s[0] < '\U{10000}' then 1 else 2) + Utf16Length(s[1..])
  }

  /** The check the team prompt applies to its answer: a length, in code
      units, of more than three. */
  predicate ValidTeamName(value: string) {
    Utf16Length(value) > 3
  }

  /** Every name of more than three characters passes the team prompt, and so
      does a shorter one whose characters need surrogate pairs; a name of
      fewer than two characters never does. */
  lemma ValidTeamNames(value: string)
    ensures |value| > 3 ==> ValidTeamName(value)
    ensures ValidTeamName(value) ==> |value| >= 2
    ensures ValidTeamName("\U{1F600}\U{1F600}") && !ValidTeamName("abc")
  {
    assert "\U{1F600}\U{1F600}"[1..] == "\U{1F600}";
    assert "abc"[1..] == "bc" && "bc"[1..] == "c";
  }

  /** A lookup answered with a team of the requested organisation: the
      response has an organization whose login is `org`. */
  predicate MatchesOrg(lookup: Lookup, org: string) {
    lookup.Found? && lookup.data.organization.Some? && lookup.data.organization.value.login == Some(org)
  }

  /** The answers to the creation prompts: the confirmation, and when
      confirmed the typed team name and description. */
  datatype Confirmation = Declined | Confirmed(typedName: string, description: string)

  /** How a run ends: normally, by the exit after a declined creation, or by
      an unhandled rejection of a REST call. */
  datatype Outcome = Done | Exited | Crashed

  /** What the provisioner tells the run: carry on, or stop with an outcome. */
  datatype Step = Proceed | Halt(outcome: Outcome)

  /** The name an input prompt answers with: the typed text, or the default
      when nothing was typed and a default exists. */
  function Answer(typed: string, default: Option<string>): (name: string)
    ensures typed != [] ==> name == typed
    ensures typed == [] ==> name == (if default.Some? then default.value else [])
  {
    if typed == [] && default.Some? then default.value else typed
  }

  /** The creation request for a confirmed creation; the name prompt's
      default is the team given on the command line. */
  function CreateRequest(org: string, flagTeam: Option<string>, typedName: string, description: string): (call: Call)
    ensures call.CreateTeam? && call.org == org && call.privacy == SecretPrivacy
    ensures call.name == Answer(typedName, flagTeam) && call.description == description
  {
    CreateTeam(org, Answer(typedName, flagTeam), SecretPrivacy, description)
  }

  /** The first position at or after `from` below `n` that is in `rejected`,
      or `n` when there is none. */
  function FirstRejected(rejected: set<nat>, from: nat, n: nat): (k: nat)
    requires from <= n
    ensures from <= k <= n
    ensures k < n ==> k in rejected
    ensures forall j :: from <= j < k ==> j !in rejected
    decreases n - from
  {
    if from == n then n
    else if from in rejected then from
    else FirstRejected(rejected, from + 1, n)
  }

  /** The calls of `plan` that are issued when the calls at the positions in
      `rejected` fail: all of them up to and including the first failing one,
      after which the batch is abandoned. */
  function Issued(plan: seq<Call>, rejected: set<nat>): (issued: seq<Call>)
    ensures issued <= plan
    ensures plan != [] ==> issued != []
    ensures forall j :: 0 <= j < |issued| - 1 ==> j !in rejected
    ensures |issued| < |plan| ==> |issued| - 1 in rejected
  {
    var m := FirstRejected(rejected, 0, |plan|);
    if m < |plan| then plan[..m + 1] else plan
  }

  /** One more call of the plan appended to the trace continues the plan's prefix. */
  lemma Extend(start: seq<Call>, plan: seq<Call>, i: nat)
    requires i < |plan|
    ensures (start + plan[..i]) + [plan[i]] == start + plan[..i + 1]
  {
    assert plan[..i + 1] == plan[..i] + [plan[i]];
  }

  /** The batch stops right after the first failing call. */
  lemma IssuedUpTo(plan: seq<Call>, rejected: set<nat>, i: nat)
    requires i < |plan| && FirstRejected(rejected, 0, |plan|) == i
    ensures Issued(plan, rejected) == plan[..i + 1]
  {
  }

  /** With no failing call the whole batch is issued. */
  lemma IssuedAll(plan: seq<Call>, rejected: set<nat>)
    requires FirstRejected(rejected, 0, |plan|) == |plan|
    ensures Issued(plan, rejected) == plan
  {
  }

  /** Whether every call of a batch of `n` succeeds. */
  predicate AllAccepted(rejected: set<nat>, n: nat) {
    FirstRejected(rejected, 0, n) == n
  }

  /** The invitation calls sent for the record `r`. */
  function InvitationsFor(org: string, r: TeamRecord, csv: string, rejected: set<nat>): seq<Call> {
    Issued(Plan(org, r.teamId, r.teamSlug, Invitees(csv)), rejected)
  }

  class Workflow {
    var teamExists: bool
    var teamId: int
    var teamUrl: Option<string>
    var teamSlug: Option<string>
    /** Every REST call made so far, in order. */
    var calls: seq<Call>

    /** The module's state when the program starts. */
    constructor ()
      ensures Record() == Unresolved && calls == []
    {
      teamExists, teamId, teamUrl, teamSlug := false, 0, None, None;
      calls := [];
    }

    function Record(): TeamRecord
      reads this
    {
      TeamRecord(teamExists, teamId, teamUrl, teamSlug)
    }

    /** Looks the team up by slug; records it only when the response names
        the requested organisation. Every failure of the lookup is caught:
        a 404 clears teamExists, any other status leaves the record alone. */
    method FindTeam(org: string, team: string, lookup: Lookup)
      modifies this
      ensures calls == old(calls) + [GetTeamByName(org, team)]
      ensures MatchesOrg(lookup, org) ==> Record() == Known(lookup.data.id, lookup.data.htmlUrl, lookup.data.slug)
      ensures lookup.Found? && !MatchesOrg(lookup, org) ==> Record() == old(Record())
      ensures lookup.LookupFailed? ==> Record() == old(Record()).(teamExists := old(teamExists) && lookup.status != 404)
      ensures old(Record()) == Unresolved ==> Consistent(Record()) && (teamExists <==> MatchesOrg(lookup, org))
    {
      calls := calls + [GetTeamByName(org, team)];
      var data: Option<TeamData> := None;
      match lookup {
        case Found(d) =>
          data := Some(d);
        case LookupFailed(status) =>
          if status == 404 {
            teamExists := false;
          }
      }
      if data.Some? && data.value.organization.Some? && data.value.organization.value.login == Some(org) {
        teamExists := true;
        teamId := data.value.id;
        teamUrl := Some(data.value.htmlUrl);
        teamSlug := Some(data.value.slug);
      }
    }

    /** Creates the team when it is not known: asks for confirmation, exits
        when the user declines, and otherwise sends one creation request for a
        secret team and records the created team. A failing creation call is
        not caught and ends the run. */
    method CreateTeam(org: string, flagTeam: Option<string>, confirmation: Confirmation, created: CreateResponse)
      returns (step: Step)
      modifies this
      ensures old(teamExists) ==> step == Proceed && Record() == old(Record()) && calls == old(calls)
      ensures !old(teamExists) && confirmation.Declined? ==>
        step == Halt(Exited) && Record() == old(Record()) && calls == old(calls)
      ensures !old(teamExists) && confirmation.Confirmed? ==>
        calls == old(calls) + [CreateRequest(org, flagTeam, confirmation.typedName, confirmation.description)]
      ensures !old(teamExists) && confirmation.Confirmed? && created.Created? ==>
        step == Proceed && Record() == Known(created.id, created.htmlUrl, created.slug)
      ensures !old(teamExists) && confirmation.Confirmed? && created.CreateFailed? ==>
        step == Halt(Crashed) && Record() == old(Record())
      ensures step == Proceed ==> teamExists
    {
      if teamExists {
        return Proceed;
      }
      match confirmation {
        case Declined =>
          step := Halt(Exited);
        case Confirmed(typedName, description) =>
          calls := calls + [CreateRequest(org, flagTeam, typedName, description)];
          match created {
            case Created(id, htmlUrl, slug) =>
              teamExists := true;
              teamId := id;
              teamUrl := Some(htmlUrl);
              teamSlug := Some(slug);
              step := Proceed;
            case CreateFailed(_) =>
              step := Halt(Crashed);
          }
      }
    }

    /** Splits the block into invitees and sends their calls. */
    method InviteMembers(org: string, csv: string, rejected: set<nat>) returns (ok: bool)
      modifies this`calls
      ensures calls == old(calls) + InvitationsFor(org, Record(), csv, rejected)
      ensures ok <==> AllAccepted(rejected, |Invitees(csv)|)
    {
      var invitees := Invitees(csv);
      ok := SendInvitations(org, invitees, rejected);
    }

    /** Sends one call per invitee, one at a time and in order; the first
        call that fails is not caught, so the calls after it are never made.
        The record is only read. */
    method SendInvitations(org: string, invitees: seq<string>, rejected: set<nat>) returns (ok: bool)
      modifies this`calls
      ensures calls == old(calls) + Issued(Plan(org, teamId, teamSlug, invitees), rejected)
      ensures ok <==> AllAccepted(rejected, |invitees|)
    {
      var id, slug := teamId, teamSlug;
      ghost var plan := Plan(org, id, slug, invitees);
      ghost var start := calls;
      var n := |invitees|;
      var i := 0;
      while i < n
        invariant 0 <= i <= n
        invariant calls == start + plan[..i]
        invariant FirstRejected(rejected, 0, n) == FirstRejected(rejected, i, n)
      {
        assert plan[i] == Dispatch(org, id, slug, invitees[i]);
        Extend(start, plan, i);
        calls := calls + [Dispatch(org, id, slug, invitees[i])];
        if i in rejected {
          assert FirstRejected(rejected, i, n) == i;
          IssuedUpTo(plan, rejected, i);
          return false;
        }
        i := i + 1;
      }
      IssuedAll(plan, rejected);
      assert plan[..n] == plan;
      ok := true;
    }

    /** The whole run: resolve, provision, invite. The team prompt only
        lets a name of more than three characters through. */
    method Run(org: string, team: string, flagTeam: Option<string>, lookup: Lookup,
               confirmation: Confirmation, created: CreateResponse, csv: string, rejected: set<nat>)
      returns (outcome: Outcome)
      requires ValidTeamName(team)
      requires Record() == Unresolved && calls == []
      modifies this
      ensures RunResult(Record(), calls, outcome) == Simulate(org, team, flagTeam, lookup, confirmation, created, csv, rejected)
    {
      FindTeam(org, team, lookup);
      var step := CreateTeam(org, flagTeam, confirmation, created);
      if step.Halt? {
        return step.outcome;
      }
      ghost var prefix, known := calls, Record();
      if MatchesOrg(lookup, org) {
        assert known == Resolved(org, lookup) && prefix == [GetTeamByName(org, team)];
      } else {
        assert known == Known(created.id, created.htmlUrl, created.slug);
        assert prefix == [GetTeamByName(org, team), CreateRequest(org, flagTeam, confirmation.typedName, confirmation.description)];
      }
      assert Simulate(org, team, flagTeam, lookup, confirmation, created, csv, rejected) == Invite(org, known, prefix, csv, rejected);
      var ok := InviteMembers(org, csv, rejected);
      outcome := if ok then Done else Crashed;
    }
  }

  /** What a run leaves behind: the team record, the trace and how it ended. */
  datatype RunResult = RunResult(record: TeamRecord, calls: seq<Call>, outcome: Outcome)

  /** The record after the lookup, starting from nothing resolved. */
  function Resolved(org: string, lookup: Lookup): (r: TeamRecord)
    ensures r.teamExists <==> MatchesOrg(lookup, org)
    ensures Consistent(r)
  {
    if MatchesOrg(lookup, org) then Known(lookup.data.id, lookup.data.htmlUrl, lookup.data.slug) else Unresolved
  }

  /** The invitation step for a known team, with the outcome it ends in. */
  function Invite(org: string, r: TeamRecord, prefix: seq<Call>, csv: string, rejected: set<nat>): RunResult {
    RunResult(r, prefix + InvitationsFor(org, r, csv, rejected),
              if AllAccepted(rejected, |Invitees(csv)|) then Done else Crashed)
  }

  /** The reference run: every call in order, the final record and the outcome. */
  function Simulate(org: string, team: string, flagTeam: Option<string>, lookup: Lookup,
                    confirmation: Confirmation, created: CreateResponse, csv: string, rejected: set<nat>): RunResult
  {
    var lookupCall := GetTeamByName(org, team);
    var found := Resolved(org, lookup);
    if found.teamExists then Invite(org, found, [lookupCall], csv, rejected)
    else match confirmation
      case Declined => RunResult(Unresolved, [lookupCall], Exited)
      case Confirmed(typedName, description) =>
        var request := CreateRequest(org, flagTeam, typedName, description);
        match created
          case CreateFailed(_) => RunResult(Unresolved, [lookupCall, request], Crashed)
          case Created(id, htmlUrl, slug) => Invite(org, Known(id, htmlUrl, slug), [lookupCall, request], csv, rejected)
  }

  /** The invitation batch: in order, one call per invitee for the team of
      `r`, all of them when no call fails, and no team creation. */
  lemma InvitationsDispatch(org: string, r: TeamRecord, csv: string, rejected: set<nat>)
    ensures |InvitationsFor(org, r, csv, rejected)| <= |Invitees(csv)|
    ensures forall k :: 0 <= k < |InvitationsFor(org, r, csv, rejected)| ==>
      InvitationsFor(org, r, csv, rejected)[k] == Dispatch(org, r.teamId, r.teamSlug, Invitees(csv)[k])
    ensures AllAccepted(rejected, |Invitees(csv)|) ==> InvitationsFor(org, r, csv, rejected) == Plan(org, r.teamId, r.teamSlug, Invitees(csv))
    ensures Creations(InvitationsFor(org, r, csv, rejected)) == 0
  {
    var plan := Plan(org, r.teamId, r.teamSlug, Invitees(csv));
    var issued := InvitationsFor(org, r, csv, rejected);
    assert forall k :: 0 <= k < |issued| ==> issued[k] == plan[k];
  }

  /** A run starts with the lookup, and leaves a consistent record. */
  lemma RunConsistent(org: string, team: string, flagTeam: Option<string>, lookup: Lookup,
                      confirmation: Confirmation, created: CreateResponse, csv: string, rejected: set<nat>)
    ensures var res := Simulate(org, team, flagTeam, lookup, confirmation, created, csv, rejected);
      && Consistent(res.record)
      && |res.calls| >= 1 && res.calls[0] == GetTeamByName(org, team)
  {
  }

  /** A team is created at most once, and only when the lookup did not find
      it in the organisation and the user confirmed. */
  lemma RunCreatesOnlyWhenMissing(org: string, team: string, flagTeam: Option<string>, lookup: Lookup,
                                  confirmation: Confirmation, created: CreateResponse, csv: string, rejected: set<nat>)
    ensures var res := Simulate(org, team, flagTeam, lookup, confirmation, created, csv, rejected);
      Creations(res.calls) == if !MatchesOrg(lookup, org) && confirmation.Confirmed? then 1 else 0
  {
    var res := Simulate(org, team, flagTeam, lookup, confirmation, created, csv, rejected);
    var lookupCall := GetTeamByName(org, team);
    if MatchesOrg(lookup, org) {
      var r := Resolved(org, lookup);
      InvitationsDispatch(org, r, csv, rejected);
      CreationsAppend([lookupCall], InvitationsFor(org, r, csv, rejected));
    } else if confirmation.Confirmed? {
      var request := CreateRequest(org, flagTeam, confirmation.typedName, confirmation.description);
      assert Creations([lookupCall, request]) == 1 by {
        assert [lookupCall, request][1..] == [request];
        assert [request][1..] == [];
      }
      if created.Created? {
        var r := Known(created.id, created.htmlUrl, created.slug);
        InvitationsDispatch(org, r, csv, rejected);
        CreationsAppend([lookupCall, request], InvitationsFor(org, r, csv, rejected));
      }
    }
  }

  /** Every invitation goes to the team the run ended up with, in its
      organisation: an invitation by email names the team's id, an addition by
      username names its slug. No invitation is sent when the team is unknown. */
  lemma RunInvitesResolvedTeam(org: string, team: string, flagTeam: Option<string>, lookup: Lookup,
                               confirmation: Confirmation, created: CreateResponse, csv: string, rejected: set<nat>)
    ensures var res := Simulate(org, team, flagTeam, lookup, confirmation, created, csv, rejected);
      forall k :: 0 <= k < |res.calls| && res.calls[k].IsInvitation() ==>
        && res.record.teamExists
        && res.calls[k].org == org
        && (res.calls[k].CreateInvitation? ==> res.calls[k].teamIds == [res.record.teamId])
        && (res.calls[k].AddOrUpdateMembership? ==> res.calls[k].teamSlug == res.record.teamSlug)
  {
    var lookupCall := GetTeamByName(org, team);
    if MatchesOrg(lookup, org) {
      InviteTargets(org, Resolved(org, lookup), [lookupCall], csv, rejected);
    } else if confirmation.Confirmed? && created.Created? {
      var request := CreateRequest(org, flagTeam, confirmation.typedName, confirmation.description);
      InviteTargets(org, Known(created.id, created.htmlUrl, created.slug), [lookupCall, request], csv, rejected);
    }
  }

  /** The invitation step after a prefix with no invitation in it. */
  lemma InviteTargets(org: string, r: TeamRecord, prefix: seq<Call>, csv: string, rejected: set<nat>)
    requires forall k :: 0 <= k < |prefix| ==> !prefix[k].IsInvitation()
    ensures var calls := Invite(org, r, prefix, csv, rejected).calls;
      forall k :: 0 <= k < |calls| && calls[k].IsInvitation() ==>
        && calls[k].org == org
        && (calls[k].CreateInvitation? ==> calls[k].teamIds == [r.teamId])
        && (calls[k].AddOrUpdateMembership? ==> calls[k].teamSlug == r.teamSlug)
  {
    var batch := InvitationsFor(org, r, csv, rejected);
    var calls := prefix + batch;
    InvitationsDispatch(org, r, csv, rejected);
    forall k | 0 <= k < |calls| && calls[k].IsInvitation()
      ensures calls[k].org == org
      ensures calls[k].CreateInvitation? ==> calls[k].teamIds == [r.teamId]
      ensures calls[k].AddOrUpdateMembership? ==> calls[k].teamSlug == r.teamSlug
    {
      assert calls[k] == batch[k - |prefix|];
      PlanClassifies(org, r.teamId, r.teamSlug, Invitees(csv), k - |prefix|);
    }
  }

  /** A run exits exactly when the team was missing and the user declined
      to create it, and then the lookup was the only call. */
  lemma RunExits(org: string, team: string, flagTeam: Option<string>, lookup: Lookup,
                 confirmation: Confirmation, created: CreateResponse, csv: string, rejected: set<nat>)
    ensures var res := Simulate(org, team, flagTeam, lookup, confirmation, created, csv, rejected);
      && (res.outcome == Exited <==> !MatchesOrg(lookup, org) && confirmation.Declined?)
      && (res.outcome == Exited ==> res.calls == [GetTeamByName(org, team)] && !res.record.teamExists)
  {
  }

  /** A run completes exactly when the team is known and no invitation call
      failed, and then every invitee got its call, in order, after the lookup
      and any creation. */
  lemma RunCompletes(org: string, team: string, flagTeam: Option<string>, lookup: Lookup,
                     confirmation: Confirmation, created: CreateResponse, csv: string, rejected: set<nat>)
    ensures var res := Simulate(org, team, flagTeam, lookup, confirmation, created, csv, rejected);
      && (res.outcome == Done <==> res.record.teamExists && AllAccepted(rejected, |Invitees(csv)|))
      && (res.outcome == Done ==>
            var plan := Plan(org, res.record.teamId, res.record.teamSlug, Invitees(csv));
            |plan| <= |res.calls| && res.calls[|res.calls| - |plan|..] == plan)
  {
    var res := Simulate(org, team, flagTeam, lookup, confirmation, created, csv, rejected);
    if res.record.teamExists {
      InvitationsDispatch(org, res.record, csv, rejected);
    }
  }
}
