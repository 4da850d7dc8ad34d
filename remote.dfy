/** The remote side of the tool, as data: the calls the program issues to the
    hosting service's REST API, and the responses it gets back. Nothing in
    this module talks to a network; the workflow in module Cli records every
    call it would make in a trace, and takes every response as an input. */
module Remote {

  datatype Option<+T> = None | Some(value: T)

  /** The visibility the provisioner always asks for. */
  const SecretPrivacy: string := "secret"

  /** One REST call, named after the endpoint it reaches. */
  datatype Call =
    | GetTeamByName(org: string, slug: string)
    | CreateTeam(org: string, name: string, privacy: string, description: string)
    | CreateInvitation(org: string, teamIds: seq<int>, email: string)
    | AddOrUpdateMembership(org: string, teamSlug: Option<string>, username: string)
  {
    /** The two calls the member inviter issues. */
    predicate IsInvitation() {
      CreateInvitation? || AddOrUpdateMembership?
    }
  }

  /** The `organization` member of a team record; its `login` may be absent. */
  datatype Organization = Organization(login: Option<string>)

  /** The part of a team as returned by the lookup endpoint that is read. */
  datatype TeamData = TeamData(id: int, htmlUrl: string, slug: string, organization: Option<Organization>)

  /** Outcome of the lookup by slug: the team, or the error's HTTP status. */
  datatype Lookup = Found(data: TeamData) | LookupFailed(status: int)

  /** Outcome of the creation call: the new team's identity, or the error's status. */
  datatype CreateResponse = Created(id: int, htmlUrl: string, slug: string) | CreateFailed(status: int)

  /** Number of team-creation calls in a trace. */
  function Creations(calls: seq<Call>): (n: nat)
    ensures n <= |calls|
    ensures n == 0 <==> forall k :: 0 <= k < |calls| ==> !calls[k].CreateTeam?
  {
    if calls == [] then 0
    else (if calls[0].CreateTeam? then 1 else 0) + Creations(calls[1..])
  }

  lemma {:induction false} CreationsAppend(a: seq<Call>, b: seq<Call>)
    ensures Creations(a + b) == Creations(a) + Creations(b)
  {
    if a == [] {
      assert a + b == b;
    } else {
      assert (a + b)[1..] == a[1..] + b;
      CreationsAppend(a[1..], b);
    }
  }
}
