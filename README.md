# org-invite, modelled in Dafny

`org-invite` is a command-line tool that adds people to a team of a GitHub
organisation. It asks for a token, a user, an organisation and a team, and
then runs three steps:

1. It looks the team up by slug. The team counts as found only when the
   response names the requested organisation.
2. If the team is missing, it asks whether to create it. On "no" the process
   exits. On "yes" it creates a secret team under the typed name (the
   `--team` flag is the default) with the typed description.
3. It asks for a comma-separated block of usernames and email addresses. It
   splits the block on commas and trims each piece. Then it sends one call
   per invitee, in order: an organisation invitation for the team's id when
   the entry contains an `@`, and a membership-add to the team's slug
   otherwise.

The model has three modules:

- `Remote` (`remote.dfy`): the REST calls as data (`Call`) and the responses
  the program reads (`Lookup`, `CreateResponse`). The program never talks to
  the network here. Every call it would make is appended to a trace, and
  every response is an input.
- `Inviter` (`inviter.dfy`): the pure part of the inviter.
  - `Split` is JavaScript's `split(",")`, keeping empty pieces.
  - `Trim` is `String.prototype.trim`, over the ECMAScript WhiteSpace and
    LineTerminator characters.
  - `Invitees` is split-then-trim.
  - `Dispatch` and `Plan` choose the call for each invitee.
- `Cli` (`cli.dfy`): the stateful workflow.
  - The program's four module-level variables (`teamExists`, `teamId`,
    `teamUrl`, `teamSlug`) are the fields of class `Workflow`, together with
    the call trace `calls`.
  - `FindTeam`, `CreateTeam` and `InviteMembers` update those fields as the
    source's functions do. The source reduces over the invitees; here that
    is the loop in `SendInvitations`.
  - `Run` chains the three steps. It is proved equal to the reference
    function `Simulate`: same final record, same trace, same outcome. The
    run-level properties are lemmas about `Simulate`.

What happens when a call fails:

- Lookup: every failure is caught. A 404 clears `teamExists`; any other
  status leaves the record as it was.
- Creation and invitation: a failure is not caught. The promise rejection is
  unhandled, so the run ends (`Crashed`) and no later call is made.
- The invitation calls that fail are given as a set `rejected` of invitee
  positions. The batch stops right after the first of them (`Issued`).

The model follows the code as written in three places where a reader might
expect otherwise:

- Empty or whitespace-only entries are not skipped. An empty block, or a
  trailing comma, yields an empty invitee that still gets a membership-add
  call (`EmptyBlock`, `TrailingSeparator`).
- The invitations run one after the other, and the first failure stops the
  rest. They are not isolated from each other.
- The default for the new team's name is the `--team` flag, not the team
  answered at the first prompt.

## Model

| member | source | states |
|---|---|---|
| Inviter.Split | cli.js:147 | splitting on commas gives one more piece than there are commas, and no piece contains a comma |
| Inviter.JoinSplit | cli.js:147 | joining the pieces of a split with commas gives back the original text, so nothing is lost or reordered |
| Inviter.SplitJoin | cli.js:147 | splitting a comma join of comma-free pieces (at least one) gives those pieces back; with JoinSplit, split is a bijection onto non-empty lists of comma-free pieces |
| Inviter.SplitPrefix | cli.js:147 | a comma-free prefix is glued onto the first piece of what follows it |
| Inviter.SplitTrailingSeparator | cli.js:147 | a trailing comma adds exactly one empty piece at the end |
| Inviter.IsWhitespace | cli.js:147 | the characters trim removes: tab, line feed, vertical tab, form feed, carriage return, space, no-break space, the Unicode space separators, line and paragraph separator, and the byte-order mark |
| Inviter.Trim | cli.js:147 | the result has no whitespace at either end, and it is the infix of the input left after removing only whitespace from both ends |
| Inviter.TrimPadded | cli.js:147 | a trimmed text surrounded by any whitespace trims to exactly that text |
| Inviter.TrimIdempotent | cli.js:147 | trimming twice is trimming once |
| Inviter.TrimWithin | cli.js:147 | trimming only removes characters: every character left was in the input |
| Inviter.TrimAll | cli.js:147 | trimming every piece keeps the count and the order, and trims each piece |
| Inviter.Invitees | cli.js:147 | the number of invitees is the number of commas plus one, and invitee k is piece k of the split, trimmed |
| Inviter.InviteesClean | cli.js:147 | no invitee has whitespace at either end, and none contains a comma |
| Inviter.TrailingSeparator | cli.js:147 | a trailing comma appends one empty invitee after the others |
| Inviter.EmptyBlock | cli.js:147-173 | an empty block is one empty invitee, and it still gets a membership-add call with an empty username |
| Inviter.IndexOf | cli.js:160 | the first position at or after the start holding the character, or -1 exactly when the character does not occur there |
| Inviter.IsEmail | cli.js:160 | an invitee is treated as an email address when the position of its first '@' is above -1 |
| Inviter.Dispatch | cli.js:160-173 | the call for one invitee goes to the organisation and is for that invitee; it is an invitation naming the team's id exactly when the invitee contains '@', and otherwise a membership-add naming the team's slug |
| Inviter.Plan | cli.js:157-178 | one call per invitee, in input order; call k is the call chosen for invitee k |
| Inviter.PlanClassifies | cli.js:160-173 | each planned call goes to the organisation and is for its invitee; it is an invitation for the team's id exactly when the invitee contains '@', and otherwise a membership-add to the team's slug |
| Inviter.ThreeEntriesSplit | cli.js:147 | a block of three comma-free entries typed with spaces around the commas splits into the three padded entries |
| Inviter.ThreeEntriesTrim | cli.js:147 | trimming removes exactly the spaces typed around those entries |
| Inviter.ThreeInvitees | cli.js:147 | a block of three trimmed, comma-free entries is parsed into exactly those three invitees, in order |
| Inviter.ThreeCalls | cli.js:160-173 | for a username, an address and a username, the plan is a membership-add, an invitation by email and a membership-add, in that order |
| Inviter.AliceBobCarolEntries | cli.js:147 | the block "alice, bob@example.com , carol" is the three names typed with spaces around the commas |
| Inviter.AliceBobCarol | cli.js:147-160 | "alice", "bob@example.com" and "carol" are trimmed and comma-free, and only the middle one is an email address |
| Inviter.AliceBobCarolBlock | cli.js:147-173 | the block "alice, bob@example.com , carol" is parsed into "alice", "bob@example.com" and "carol", in that order, and they get a membership-add, an invitation by email and a membership-add |
| Remote.Creations | cli.js:120-125 | the number of team-creation calls in a trace is zero exactly when the trace has no creation call |
| Remote.CreationsAppend | cli.js:120-125 | creation counts add up over a trace made of two parts |
| Cli.Utf16Length | cli.js:218 | a string's JavaScript length lies between its number of characters and twice that, and equals the number of characters exactly when every character is in the Basic Multilingual Plane |
| Cli.ValidTeamName | cli.js:217-220 | the team prompt accepts a name whose JavaScript length is more than three |
| Cli.ValidTeamNames | cli.js:217-220 | every name of more than three characters passes, a name of fewer than two never does, and two emoji (length four) pass while "abc" does not |
| Cli.MatchesOrg | cli.js:65-68 | a lookup names the organisation when it returned a team with an organization whose login is the requested organisation |
| Cli.Answer | cli.js:95-99 | a typed name wins; an empty answer takes the default when there is one |
| Cli.CreateRequest | cli.js:118-125 | the creation request is for the organisation, is secret, and carries the answered name (flag default) and the description |
| Cli.FirstRejected | cli.js:157-178 | the first failing position in a range, or the end of the range when nothing in it fails |
| Cli.Issued | cli.js:157-178 | the issued calls are a prefix of the plan, non-empty when the plan is non-empty; no call before the last issued one failed, and the batch stops early only right after a failing call |
| Cli.Resolved | cli.js:55-73 | starting from the initial record, the lookup records a team exactly when the response names the organisation, and the record it leaves is consistent |
| Cli.Workflow.constructor | cli.js:32-35 | the program starts with no team known, id 0, no url, no slug and no calls |
| Cli.Workflow.FindTeam | cli.js:55-73 | appends the lookup call; a response naming the organisation records the team; a response for another organisation changes nothing; a 404 clears teamExists and any other failure leaves the record alone; from the initial record the result is consistent, and the team is known exactly when the response names the organisation |
| Cli.Workflow.CreateTeam | cli.js:80-133 | a known team is left alone and nothing is sent; a decline exits and sends nothing; a confirmation sends exactly one creation request and then records the created team, or ends the run when the call fails |
| Cli.Workflow.InviteMembers | cli.js:146-178 | appends exactly the invitation calls issued for the block and the current team, and succeeds exactly when none of them fails |
| Cli.Workflow.SendInvitations | cli.js:157-178 | sends the plan's calls in order and stops after the first failing one; the trace grows by exactly the issued calls, and the batch succeeds exactly when no call fails |
| Cli.Workflow.Run | cli.js:227-236 | for a team name the prompt accepts (JavaScript length more than three), the final record, the whole trace and the outcome are those of the reference run Simulate |
| Cli.Simulate | cli.js:227-236 | the reference run: the lookup, then for a missing team the confirmation and at most one creation, then the invitation batch for the resolved or created team, with the outcome each path ends in |
| Cli.InvitationsDispatch | cli.js:157-178 | the invitation batch is at most one call per invitee, call k is the call for invitee k, the batch is the whole plan when no call fails, and it never creates a team |
| Cli.RunConsistent | cli.js:227-236 | a run starts with the lookup and leaves a consistent record |
| Cli.RunCreatesOnlyWhenMissing | cli.js:80-133 | a run creates exactly one team when the lookup did not find it in the organisation and the user confirmed, and none otherwise |
| Cli.InviteTargets | cli.js:160-173 | after a prefix without invitations, every invitation call goes to the organisation and names the recorded team's id or slug |
| Cli.RunInvitesResolvedTeam | cli.js:157-174 | every invitation of a run goes to the team the run ended with, in its organisation, by id for email invitations and by slug for membership-adds; none is sent while the team is unknown |
| Cli.RunExits | cli.js:114-117 | a run exits exactly when the team was missing and the user declined, and then the lookup was its only call and no team is known |
| Cli.RunCompletes | cli.js:232-236 | a run completes exactly when the team is known and no invitation failed, and then its trace ends with the full plan for the invitees |

## Left out

- The network calls are not made. Octokit is represented by the `Call` values
  appended to the trace, and the responses it would return are parameters.
- The interactive prompts are not modelled. Their answers are parameters:
  the team name, the confirmation, the typed name and description, and the
  invitee block. The token, user and organisation prompts (cli.js:185-226)
  only produce the parameters `org` and `team`.
- The command-line and environment defaults (cli.js:15-30, 191-209) are not
  modelled, except that the `--team` flag is the parameter `flagTeam`. The
  duplicate `-t` short option is not modelled either.
- The token and the user reach no modelled logic. The API client set up with
  the token (cli.js:228-230) is not modelled.
- Log output is not modelled: the progress lines, the invitee count and list
  (cli.js:149-155), and the closing URL (cli.js:180-181). That count is
  `|Invitees(csv)|`, which `Inviter.Invitees` characterises.
- Concurrency and the event loop are not modelled. The awaited calls run
  one after another, as the source sequences them.
- `process.exit` and the unhandled promise rejection are not modelled as
  process behaviour. They are the terminal outcomes `Exited` and `Crashed`,
  and nothing after them is made.
- The UI helpers and the unused imports are not modelled: BottomBar, chalk,
  pretty-bytes and moment.
- Cli.Workflow.FindTeam: `_.get(data, "organization", false)` checks for
  presence. The model treats any `organization` value as present, so it does
  not model falsy non-object values of that field.
- Inviter.Trim: JavaScript strings are UTF-16 code units, while Dafny's
  `char` is a Unicode scalar value. Trimming never splits a surrogate pair,
  so this makes no difference to the result. The whitespace set is the
  current Unicode space-separator list, written out character by character.
  Only the team-name check depends on length in code units, and
  `Cli.Utf16Length` models that count.
- The error returned by a failing invitation or creation call is not
  modelled. Only its position (`rejected`) or the fact that it failed
  (`CreateFailed`) is.
