/** The member inviter's local logic: the free-text block the user types is
    split on commas, every piece is trimmed, and every resulting invitee is
    turned into one planned REST call: an organisation invitation by email
    when it contains an '@', a team membership-add by username otherwise. */
module Inviter {
  import opened Remote

  const Separator: char := ','

  /** The characters that string trimming removes: the WhiteSpace and
      LineTerminator code points of ECMAScript (the space separators of
      Unicode category Zs are listed one by one). */
  predicate IsWhitespace(c: char) {
    || c == '\t' || c == '\n' || c == '\U{000B}' || c == '\U{000C}' || c == '\r'
    || c == ' ' || c == '\U{00A0}' || c == '\U{1680}'
    || ('\U{2000}' <= c <= '\U{200A}')
    || c == '\U{2028}' || c == '\U{2029}' || c == '\U{202F}' || c == '\U{205F}'
    || c == '\U{3000}' || c == '\U{FEFF}'
  }

  predicate AllWhitespace(s: string) {
    forall i :: 0 <= i < |s| ==> IsWhitespace(s[i])
  }

  /** Neither end of `s` is whitespace. */
  predicate IsTrimmed(s: string) {
    s == [] || (!IsWhitespace(s[0]) && !IsWhitespace(s[|s| - 1]))
  }

  /** Number of separators in `s`. */
  function Commas(s: string): nat {
    if s == [] then 0 else (if s[0] == Separator then 1 else 0) + Commas(s[1..])
  }

  /** Splitting on the separator: the maximal separator-free pieces of `s`,
      in order, including empty ones; the empty text gives one empty piece. */
  function Split(s: string): (parts: seq<string>)
    ensures |parts| == Commas(s) + 1
    ensures forall k :: 0 <= k < |parts| ==> Separator !in parts[k]
  {
    if s == [] then [[]]
    else
      var rest := Split(s[1..]);
      assert s == [s[0]] + s[1..];
      if s[0] == Separator then [[]] + rest
      else [[s[0]] + rest[0]] + rest[1..]
  }

  /** Joining pieces with the separator between them; Split's inverse. */
  function Join(parts: seq<string>): string {
    if parts == [] then []
    else if |parts| == 1 then parts[0]
    else parts[0] + [Separator] + Join(parts[1..])
  }

  lemma JoinConsHead(c: char, p: string, ps: seq<string>)
    ensures Join([[c] + p] + ps) == [c] + Join([p] + ps)
  {
    if ps != [] {
      assert ([[c] + p] + ps)[1..] == ps;
      assert ([p] + ps)[1..] == ps;
    }
  }

  /** Joining the pieces gives back the text that was split. */
  lemma {:induction false} JoinSplit(s: string)
    ensures Join(Split(s)) == s
  {
    if s != [] {
      var rest := Split(s[1..]);
      JoinSplit(s[1..]);
      if s[0] == Separator {
        assert ([[]] + rest)[1..] == rest;
        assert s == [s[0]] + s[1..];
      } else {
        assert [rest[0]] + rest[1..] == rest;
        JoinConsHead(s[0], rest[0], rest[1..]);
        assert s == [s[0]] + s[1..];
      }
    }
  }

  /** Splitting a separator-free prefix onto the first piece of what follows. */
  lemma {:induction false} SplitPrefix(p: string, t: string)
    requires Separator !in p
    ensures Split(p + t) == [p + Split(t)[0]] + Split(t)[1..]
  {
    if p != [] {
      assert (p + t)[0] == p[0];
      assert (p + t)[1..] == p[1..] + t;
      SplitPrefix(p[1..], t);
      assert [p[0]] + (p[1..] + Split(t)[0]) == p + Split(t)[0];
    } else {
      assert p + t == t;
      assert p + Split(t)[0] == Split(t)[0];
      assert [Split(t)[0]] + Split(t)[1..] == Split(t);
    }
  }

  /** Splitting a join of separator-free pieces gives back the pieces: with
      JoinSplit, Split is a bijection between texts and non-empty lists of
      separator-free pieces. */
  lemma {:induction false} SplitJoin(parts: seq<string>)
    requires |parts| >= 1
    requires forall k :: 0 <= k < |parts| ==> Separator !in parts[k]
    ensures Split(Join(parts)) == parts
  {
    if |parts| == 1 {
      SplitPrefix(parts[0], []);
      assert parts[0] + [] == parts[0];
    } else {
      var tail := Join(parts[1..]);
      SplitJoin(parts[1..]);
      SplitPrefix(parts[0], [Separator] + tail);
      assert parts[0] + [Separator] + tail == parts[0] + ([Separator] + tail);
      assert ([Separator] + tail)[1..] == tail;
      assert Split([Separator] + tail) == [[]] + Split(tail);
      assert parts[0] + [] == parts[0];
      assert [parts[0]] + parts[1..] == parts;
    }
  }

  /** The first index at or after `i` that does not hold whitespace (or |s|). */
  function SkipLeading(s: string, i: nat): (j: nat)
    requires i <= |s|
    ensures i <= j <= |s|
    ensures forall k :: i <= k < j ==> IsWhitespace(s[k])
    ensures j < |s| ==> !IsWhitespace(s[j])
    decreases |s| - i
  {
    if i < |s| && IsWhitespace(s[i]) then SkipLeading(s, i + 1) else i
  }

  /** The end of `s[lo..j]` once its trailing whitespace is dropped. */
  function SkipTrailing(s: string, lo: nat, j: nat): (b: nat)
    requires lo <= j <= |s|
    ensures lo <= b <= j
    ensures forall k :: b <= k < j ==> IsWhitespace(s[k])
    ensures lo < b ==> !IsWhitespace(s[b - 1])
  {
    if lo < j && IsWhitespace(s[j - 1]) then SkipTrailing(s, lo, j - 1) else j
  }

  /** `s` without leading and trailing whitespace: the infix of `s` that
      starts after its leading whitespace, is followed only by whitespace,
      and neither starts nor ends with whitespace. */
  function Trim(s: string): (r: string)
    ensures IsTrimmed(r)
    ensures var a := SkipLeading(s, 0);
      && a + |r| <= |s| && r == s[a..a + |r|]
      && (forall k :: 0 <= k < a ==> IsWhitespace(s[k]))
      && (forall k :: a + |r| <= k < |s| ==> IsWhitespace(s[k]))
  {
    var a := SkipLeading(s, 0);
    s[a..SkipTrailing(s, a, |s|)]
  }

  lemma {:induction false} SkipLeadingAt(s: string, i: nat, j: nat)
    requires i <= j <= |s|
    requires forall k :: i <= k < j ==> IsWhitespace(s[k])
    requires j < |s| ==> !IsWhitespace(s[j])
    ensures SkipLeading(s, i) == j
    decreases j - i
  {
    if i < j {
      SkipLeadingAt(s, i + 1, j);
    }
  }

  lemma {:induction false} SkipTrailingAt(s: string, lo: nat, b: nat, j: nat)
    requires lo <= b <= j <= |s|
    requires forall k :: b <= k < j ==> IsWhitespace(s[k])
    requires lo < b ==> !IsWhitespace(s[b - 1])
    ensures SkipTrailing(s, lo, j) == b
    decreases j - b
  {
    if b < j {
      SkipTrailingAt(s, lo, b, j - 1);
    }
  }

  /** Trimming is determined by its description: a trimmed text surrounded
      by whitespace trims to exactly that text. */
  lemma TrimPadded(lead: string, t: string, trail: string)
    requires AllWhitespace(lead) && AllWhitespace(trail)
    requires IsTrimmed(t)
    ensures Trim(lead + t + trail) == t
  {
    var s := lead + t + trail;
    var a := if t == [] then |s| else |lead|;
    assert forall k :: 0 <= k < a ==> IsWhitespace(s[k]) by {
      forall k | 0 <= k < a ensures IsWhitespace(s[k]) {
        if k < |lead| { assert s[k] == lead[k]; } else { assert s[k] == trail[k - |lead|]; }
      }
    }
    SkipLeadingAt(s, 0, a);
    var b := |lead| + |t|;
    if t == [] {
      SkipTrailingAt(s, a, a, |s|);
    } else {
      assert forall k :: b <= k < |s| ==> IsWhitespace(s[k]) by {
        forall k | b <= k < |s| ensures IsWhitespace(s[k]) { assert s[k] == trail[k - b]; }
      }
      assert s[a] == t[0] && s[b - 1] == t[|t| - 1];
      SkipTrailingAt(s, a, b, |s|);
      assert s[a..b] == t;
    }
  }

  /** Trimming only removes characters: what is left was in the text. */
  lemma TrimWithin(s: string)
    ensures forall c :: c in Trim(s) ==> c in s
  {
    var r, a := Trim(s), SkipLeading(s, 0);
    forall c | c in r ensures c in s {
      var i :| 0 <= i < |r| && r[i] == c;
      assert s[a + i] == c;
    }
  }

  /** Trimming twice is trimming once. */
  lemma TrimIdempotent(s: string)
    ensures Trim(Trim(s)) == Trim(s)
  {
    var t := Trim(s);
    TrimPadded([], t, []);
    assert [] + t + [] == t;
  }

  /** Every piece trimmed, in order. */
  function TrimAll(parts: seq<string>): (trimmed: seq<string>)
    ensures |trimmed| == |parts|
    ensures forall k :: 0 <= k < |parts| ==> trimmed[k] == Trim(parts[k])
  {
    if parts == [] then [] else [Trim(parts[0])] + TrimAll(parts[1..])
  }

  /** The invitees of a comma-separated block: every piece, trimmed, in
      order, one more than there are commas. */
  function Invitees(csv: string): (invitees: seq<string>)
    ensures |invitees| == Commas(csv) + 1
    ensures forall k :: 0 <= k < |invitees| ==> invitees[k] == Trim(Split(csv)[k])
  {
    TrimAll(Split(csv))
  }

  /** No invitee has whitespace at either end, and none holds a separator. */
  lemma InviteesClean(csv: string)
    ensures forall k :: 0 <= k < |Invitees(csv)| ==> IsTrimmed(Invitees(csv)[k]) && Separator !in Invitees(csv)[k]
  {
    var parts, invitees := Split(csv), Invitees(csv);
    forall k | 0 <= k < |invitees| ensures IsTrimmed(invitees[k]) && Separator !in invitees[k] {
      TrimWithin(parts[k]);
    }
  }

  lemma {:induction false} SplitTrailingSeparator(s: string)
    ensures Split(s + [Separator]) == Split(s) + [[]]
  {
    if s == [] {
      assert [] + [Separator] == [Separator];
      assert [Separator][1..] == [];
    } else {
      var rest, t := Split(s[1..]), s + [Separator];
      assert t != [] && t[0] == s[0] && t[1..] == s[1..] + [Separator];
      SplitTrailingSeparator(s[1..]);
      if s[0] == Separator {
        assert Split(t) == [[]] + (rest + [[]]);
      } else {
        assert Split(t) == [[s[0]] + rest[0]] + (rest[1..] + [[]]);
      }
    }
  }

  /** A trailing comma adds one empty invitee after the others; nothing
      filters it out. */
  lemma TrailingSeparator(csv: string)
    ensures Invitees(csv + [Separator]) == Invitees(csv) + [""]
  {
    SplitTrailingSeparator(csv);
    assert Trim("") == "";
    var before, after := Invitees(csv), Invitees(csv + [Separator]);
    assert forall k :: 0 <= k < |before| ==> after[k] == before[k];
  }

  /** JavaScript's `indexOf` for one character, searching from `from`: the
      first position at or after `from` holding `c`, or -1 when there is none. */
  function IndexOf(s: string, c: char, from: nat): (i: int)
    requires from <= |s|
    ensures i == -1 || from <= i < |s|
    ensures i == -1 <==> c !in s[from..]
    ensures i != -1 ==> s[i] == c && c !in s[from..i]
    decreases |s| - from
  {
    if from == |s| then -1
    else if s[from] == c then from
    else
      assert s[from..] == [s[from]] + s[from + 1..];
      IndexOf(s, c, from + 1)
  }

  /** An invitee is treated as an email address when `indexOf("@")` finds a
      position. */
  predicate IsEmail(invitee: string) {
    IndexOf(invitee, '@', 0) > -1
  }

  /** The call planned for one invitee: an invitation for the team's id when
      the invitee is an email address, a membership-add to the team's slug
      otherwise, always to the organisation and for that invitee. */
  function Dispatch(org: string, teamId: int, teamSlug: Option<string>, invitee: string): (call: Call)
    ensures call.IsInvitation() && call.org == org && Recipient(call) == invitee
    ensures call.CreateInvitation? <==> '@' in invitee
    ensures call.CreateInvitation? ==> call.teamIds == [teamId]
    ensures call.AddOrUpdateMembership? ==> call.teamSlug == teamSlug
  {
    assert invitee[0..] == invitee;
    if IsEmail(invitee) then CreateInvitation(org, [teamId], invitee)
    else AddOrUpdateMembership(org, teamSlug, invitee)
  }

  /** The person a member-inviter call is for. */
  function Recipient(call: Call): string
    requires call.IsInvitation()
  {
    if call.CreateInvitation? then call.email else call.username
  }

  /** One call per invitee, in input order. */
  function Plan(org: string, teamId: int, teamSlug: Option<string>, invitees: seq<string>): (calls: seq<Call>)
    ensures |calls| == |invitees|
    ensures forall k :: 0 <= k < |calls| ==> calls[k] == Dispatch(org, teamId, teamSlug, invitees[k])
  {
    if invitees == [] then []
    else [Dispatch(org, teamId, teamSlug, invitees[0])] + Plan(org, teamId, teamSlug, invitees[1..])
  }

  /** Each planned call goes to the organisation and is for its invitee: an
      organisation invitation for the team's id exactly when the invitee
      contains an '@', and otherwise a membership-add to the team's slug. */
  lemma PlanClassifies(org: string, teamId: int, teamSlug: Option<string>, invitees: seq<string>, k: nat)
    requires k < |invitees|
    ensures var call := Plan(org, teamId, teamSlug, invitees)[k];
      && call.IsInvitation()
      && call.org == org
      && Recipient(call) == invitees[k]
      && (call.CreateInvitation? <==> IsEmail(invitees[k]))
      && (call.CreateInvitation? ==> call.teamIds == [teamId])
      && (call.AddOrUpdateMembership? ==> call.teamSlug == teamSlug)
  {
  }

  /** An empty block is one empty invitee, and it still gets a call. */
  lemma EmptyBlock(org: string, teamId: int, teamSlug: Option<string>)
    ensures Invitees("") == [""]
    ensures Plan(org, teamId, teamSlug, Invitees("")) == [AddOrUpdateMembership(org, teamSlug, "")]
  {
    assert Split("") == [""];
    assert Trim("") == "";
  }

  /** A block of three entries, the middle one an address, with spaces
      around the entries as a user would type them. */
  function ThreeEntries(first: string, address: string, last: string): string {
    first + ", " + address + " , " + last
  }

  lemma ThreeEntriesSplit(first: string, address: string, last: string)
    requires Separator !in first && Separator !in address && Separator !in last
    ensures Split(ThreeEntries(first, address, last)) == [first, " " + address + " ", " " + last]
  {
    var parts := [first, " " + address + " ", " " + last];
    assert Separator !in parts[1] && Separator !in parts[2];
    assert Join(parts) == ThreeEntries(first, address, last) by {
      assert parts[1..][1..] == [parts[2]];
      assert Join(parts[1..]) == parts[1] + [Separator] + parts[2];
    }
    SplitJoin(parts);
  }

  lemma ThreeEntriesTrim(first: string, address: string, last: string)
    requires IsTrimmed(first) && IsTrimmed(address) && IsTrimmed(last)
    ensures Trim(first) == first && Trim(" " + address + " ") == address && Trim(" " + last) == last
  {
    assert AllWhitespace(" ");
    TrimPadded([], first, []);
    assert [] + first + [] == first;
    TrimPadded(" ", address, " ");
    TrimPadded(" ", last, []);
    assert " " + last + [] == " " + last;
  }

  /** Three entries are parsed into the trimmed entries, in order. */
  lemma ThreeInvitees(first: string, address: string, last: string)
    requires IsTrimmed(first) && IsTrimmed(address) && IsTrimmed(last)
    requires Separator !in first && Separator !in address && Separator !in last
    ensures Invitees(ThreeEntries(first, address, last)) == [first, address, last]
  {
    var csv := ThreeEntries(first, address, last);
    ThreeEntriesSplit(first, address, last);
    ThreeEntriesTrim(first, address, last);
    TrimThree(Split(csv));
  }

  lemma TrimThree(parts: seq<string>)
    requires |parts| == 3
    ensures TrimAll(parts) == [Trim(parts[0]), Trim(parts[1]), Trim(parts[2])]
  {
    var trimmed := TrimAll(parts);
    assert trimmed[0] == Trim(parts[0]) && trimmed[1] == Trim(parts[1]) && trimmed[2] == Trim(parts[2]);
  }

  /** The address among three invitees is invited by email and the two
      usernames are added to the team. */
  lemma ThreeCalls(org: string, teamId: int, teamSlug: Option<string>, first: string, address: string, last: string)
    requires !IsEmail(first) && IsEmail(address) && !IsEmail(last)
    ensures Plan(org, teamId, teamSlug, [first, address, last]) == [
      AddOrUpdateMembership(org, teamSlug, first),
      CreateInvitation(org, [teamId], address),
      AddOrUpdateMembership(org, teamSlug, last)]
  {
  }

  /** The names "alice", "bob@example.com" and "carol" meet what
      ThreeInvitees and ThreeCalls require: they are trimmed and comma-free,
      and only the middle one is an email address. */
  lemma AliceBobCarol(first: string, address: string, last: string)
    requires first == "alice" && address == "bob@example.com" && last == "carol"
    ensures IsTrimmed(first) && IsTrimmed(address) && IsTrimmed(last)
    ensures Separator !in first && Separator !in address && Separator !in last
    ensures !IsEmail(first) && IsEmail(address) && !IsEmail(last)
  {
    assert address[3] == '@';
  }

  /** The three names typed with spaces around the commas. */
  lemma AliceBobCarolEntries()
    ensures ThreeEntries("alice", "bob@example.com", "carol") == "alice, bob@example.com , carol"
  {
  }

  /** The block "alice, bob@example.com , carol" is parsed into "alice",
      "bob@example.com" and "carol", in that order; the address is invited by
      email and the two usernames are added to the team. */
  lemma AliceBobCarolBlock(org: string, teamId: int, teamSlug: Option<string>)
    ensures Invitees("alice, bob@example.com , carol") == ["alice", "bob@example.com", "carol"]
    ensures Plan(org, teamId, teamSlug, ["alice", "bob@example.com", "carol"]) == [
      AddOrUpdateMembership(org, teamSlug, "alice"),
      CreateInvitation(org, [teamId], "bob@example.com"),
      AddOrUpdateMembership(org, teamSlug, "carol")]
  {
    var first, address, last := "alice", "bob@example.com", "carol";
    AliceBobCarolEntries();
    AliceBobCarol(first, address, last);
    ThreeInvitees(first, address, last);
    ThreeCalls(org, teamId, teamSlug, first, address, last);
  }
}
