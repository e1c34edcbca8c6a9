/** The group endpoints served one call at a time, as a store of rows. */
module GroupService {
  import opened Common
  import opened Groups

  datatype Call =
    | NewGroup(id: GroupId, user: UserId, announcement: bool, approvalRequired: bool)
    | AskToJoin(group: GroupId, user: UserId, message: Option<string>, id: RequestId)
    | DecideOn(group: GroupId, request: RequestId, admin: UserId, approve: bool, now: int)

  ghost function Found(s: Store, group: GroupId, user: UserId): (r: Option<RequestId>)
    ensures r.None? <==> !Requested(s, group, user)
    ensures r.Some? ==> IsRequestOf(s, r.value, group, user)
  {
    if Requested(s, group, user) then
      var id :| id in s.requests && IsRequestOf(s, id, group, user);
      Some(id)
    else None
  }

  /** What a call answers that runs alone: the new state, or the status it is refused with. */
  ghost function Answer(s: Store, call: Call): Outcome<Store> {
    match call
    case NewGroup(id, user, announcement, approvalRequired) =>
      if id in s.groups then Refused(500) else Ok(Created(s, id, user, announcement, approvalRequired))
    case AskToJoin(group, user, message, id) =>
      var intent := Join(group, user, message, Found(s, group, user));
      if Admits(s, intent) then Committed(s, intent, id)
      else if group !in s.groups || s.groups[group].archived then Refused(404)
      else Refused(409)
    case DecideOn(group, request, admin, approve, now) =>
      var intent := Decide(group, request, admin, approve, now);
      if Admits(s, intent) then Committed(s, intent, 0)
      else if !IsAdminMember(s, group, admin) then Refused(403)
      else Refused(404)
  }

  ghost function After(s: Store, call: Call): Store {
    if Answer(s, call).Ok? then Answer(s, call).value else s
  }

  ghost function InTurn(calls: seq<Call>): Store {
    if calls == [] then EMPTY else After(InTurn(calls[..|calls| - 1]), calls[|calls| - 1])
  }

  ghost predicate Sound(s: Store) {
    Base(s) && Consistent(s)
  }

  predicate FreshKey(s: Store, call: Call) {
    match call
    case NewGroup(id, _, _, _) => id !in s.groups
    case AskToJoin(_, _, _, id) => id !in s.requests
    case DecideOn(_, _, _, _, _) => true
  }

  lemma AskKeepsSound(s: Store, call: Call)
    requires Sound(s) && call.AskToJoin?
    ensures Sound(After(s, call))
    ensures FreshKey(s, call) ==> Answer(s, call) != Refused(500)
  {
    var intent := Join(call.group, call.user, call.message, Found(s, call.group, call.user));
    if Admits(s, intent) {
      AdmittedStands(s, intent);
      if Answer(s, call).Ok? {
        CommitKeepsBase(s, intent, call.id, After(s, call));
        ConsistentUnlessOverruled(s, intent, call.id);
      }
    }
  }

  lemma DecideKeepsSound(s: Store, call: Call)
    requires Sound(s) && call.DecideOn?
    ensures Sound(After(s, call))
    ensures Answer(s, call) != Refused(500)
    ensures Answer(s, call).Ok? ==> IsOwner(s, call.group, call.admin)
  {
    var intent := Decide(call.group, call.request, call.admin, call.approve, call.now);
    if Admits(s, intent) {
      AdmittedStands(s, intent);
      if Answer(s, call).Ok? {
        CommitKeepsBase(s, intent, 0, After(s, call));
        ConsistentUnlessOverruled(s, intent, 0);
      }
    }
  }

  lemma CreateKeepsSound(s: Store, id: GroupId, user: UserId, announcement: bool, approvalRequired: bool)
    requires Sound(s) && id !in s.groups
    ensures Sound(Created(s, id, user, announcement, approvalRequired))
  {
    CreateKeepsBase(s, id, user, announcement, approvalRequired,
                    Created(s, id, user, announcement, approvalRequired));
    assert forall r | r in s.requests :: s.requests[r].group != id;
  }

  /** Calls served one after the other keep everything, and no insert breaks a unique index. */
  lemma CallKeepsSound(s: Store, call: Call)
    requires Sound(s)
    ensures Sound(After(s, call))
    ensures FreshKey(s, call) ==> Answer(s, call) != Refused(500)
  {
    match call
    case NewGroup(id, user, announcement, approvalRequired) =>
      if id !in s.groups { CreateKeepsSound(s, id, user, announcement, approvalRequired); }
    case AskToJoin(_, _, _, _) => AskKeepsSound(s, call);
    case DecideOn(_, _, _, _, _) => DecideKeepsSound(s, call);
  }

  lemma {:induction false} InTurnIsSound(calls: seq<Call>)
    ensures Sound(InTurn(calls))
  {
    if calls != [] {
      InTurnIsSound(calls[..|calls| - 1]);
      CallKeepsSound(InTurn(calls[..|calls| - 1]), calls[|calls| - 1]);
    }
  }

  /** After every sequence of calls: a pending request is no member's, and a user who is not
      the owner is a member exactly when their request is approved. */
  lemma MembersWereApproved(calls: seq<Call>, group: GroupId, user: UserId)
    ensures var s := InTurn(calls);
            && (forall id | IsRequestOf(s, id, group, user) && s.requests[id].status == Pending ::
                  (group, user) !in s.members)
            && ((group, user) in s.members && !IsOwner(s, group, user)
                <==> exists id :: IsRequestOf(s, id, group, user) && s.requests[id].status == Approved)
  {
    InTurnIsSound(calls);
    var s := InTurn(calls);
    assert Consistent(s) && Asked(s) && OneRequest(s);
    if (group, user) in s.members && !IsOwner(s, group, user) {
      var key := (group, user);
      assert Requested(s, key.0, key.1);
    }
  }

  /** The new state of a call to join that is let in, and its row. */
  function JoinRow(s: Store, group: GroupId, user: UserId, message: Option<string>,
                   existing: Option<RequestId>): Request
    requires group in s.groups && (existing.Some? ==> existing.value in s.requests)
  {
    var row := if existing.Some? then s.requests[existing.value] else Request(group, user, Pending, None, None, None);
    row.(message := message, status := if s.groups[group].approvalRequired then Pending else Approved)
  }

  lemma JoinAnswers(s: Store, group: GroupId, user: UserId, message: Option<string>, id: RequestId,
                    existing: Option<RequestId>)
    requires UniqueRequests(s) && id !in s.requests
    requires if existing.Some? then IsRequestOf(s, existing.value, group, user) else !Requested(s, group, user)
    ensures var answer := Answer(s, AskToJoin(group, user, message, id));
            if group !in s.groups || s.groups[group].archived then answer == Refused(404)
            else if (group, user) in s.members then answer == Refused(409)
            else if existing.Some? && s.requests[existing.value].status == Pending then answer == Refused(409)
            else
              var key := if existing.Some? then existing.value else id;
              var row := JoinRow(s, group, user, message, existing);
              var members := if row.status == Pending then s.members else s.members[(group, user) := Member];
              answer == Ok(s.(requests := s.requests[key := row], members := members))
  {}

  const MESSAGE_LENGTH := 300
  const NAME_LENGTH := 200
  const DESCRIPTION_LENGTH := 1000

  predicate TooLong(text: Option<string>, limit: nat) {
    text.Some? && |text.value| > limit
  }

  /** The rows after this user has asked to join: their row is written over, and who decided on
      it before stays, or a first row is put under `id`. */
  ghost predicate AsksOn(s: Store, group: GroupId, user: UserId, id: RequestId, rows: map<RequestId, Request>,
                         row: Request)
  {
    if Requested(s, group, user) then
      exists key :: IsRequestOf(s, key, group, user) && rows == s.requests[key := row]
                    && row.decidedBy == s.requests[key].decidedBy && row.decidedAt == s.requests[key].decidedAt
    else rows == s.requests[id := row] && row.decidedBy == None && row.decidedAt == None
  }

  class GroupStore {
    var groups: map<GroupId, Group>
    var members: map<(GroupId, UserId), Role>
    var requests: map<RequestId, Request>
    var audits: seq<Audit>

    ghost function State(): Store
      reads this
    {
      Store(groups, members, requests, audits)
    }

    ghost predicate Valid()
      reads this
    {
      UniqueRequests(State())
    }

    constructor ()
      ensures Valid() && State() == EMPTY
    {
      groups, members, requests, audits := map[], map[], map[], [];
    }

    method CreateGroup(name: string, description: Option<string>, announcement: bool, approvalRequired: bool,
                       user: UserId, id: GroupId)
      returns (r: Outcome<GroupId>)
      requires Valid() && id !in groups
      modifies this
      ensures Valid()
      ensures r == if 2 <= |name| <= NAME_LENGTH && !TooLong(description, DESCRIPTION_LENGTH) then Ok(id)
              else Refused(422)
      ensures r.Refused? ==> State() == old(State())
      ensures r.Ok? ==> Answer(old(State()), NewGroup(id, user, announcement, approvalRequired)) == Ok(State())
      ensures r.Ok? ==> groups.Keys == old(groups).Keys + {id}
      ensures r.Ok? ==> groups[id].announcement == announcement && groups[id].approvalRequired == approvalRequired
      ensures r.Ok? ==> !groups[id].archived && !groups[id].onlyAdminsCanPost
      ensures r.Ok? ==> forall key | key in old(groups) :: groups[key] == old(groups)[key]
      ensures r.Ok? ==> members == old(members)[(id, user) := Owner] && requests == old(requests)
      ensures r.Ok? ==> audits == old(audits) + [GroupCreated(user, id)]
    {
      if |name| < 2 || |name| > NAME_LENGTH || TooLong(description, DESCRIPTION_LENGTH) { return Refused(422); }
      groups := groups[id := Group(false, false, announcement, approvalRequired)];
      members := members[(id, user) := Owner];
      audits := audits + [GroupCreated(user, id)];
      return Ok(id);
    }

    /** Who may let others in. */
    ghost predicate Manages(group: GroupId, user: UserId)
      reads this
    {
      (group, user) in members && members[(group, user)] in {Admin, Owner}
    }

    method RequireAdminMember(group: GroupId, user: UserId) returns (r: Outcome<Role>)
      ensures r == if IsAdminMember(State(), group, user) then Ok(members[(group, user)]) else Refused(403)
      ensures r.Ok? <==> Manages(group, user)
    {
      if (group, user) !in members || !CanManageMembers(members[(group, user)]) { return Refused(403); }
      return Ok(members[(group, user)]);
    }

    /** The row of this user for this group, if there is one. */
    method Existing(group: GroupId, user: UserId) returns (existing: Option<RequestId>)
      ensures if existing.Some? then IsRequestOf(State(), existing.value, group, user)
              else !Requested(State(), group, user)
    {
      if found :| found in requests && requests[found].group == group && requests[found].user == user {
        return Some(found);
      }
      return None;
    }

    /** A request of this user for this group is pending. */
    ghost predicate Waiting(group: GroupId, user: UserId)
      reads this
    {
      exists key :: key in requests && IsRequestOf(State(), key, group, user) && requests[key].status == Pending
    }

    /** The key of a new row is taken fresh. */
    method RequestJoin(group: GroupId, message: Option<string>, user: UserId, id: RequestId)
      returns (r: Outcome<Request>)
      requires Valid() && id !in requests
      modifies this
      ensures Valid()
      ensures TooLong(message, MESSAGE_LENGTH) ==> r == Refused(422)
      ensures !TooLong(message, MESSAGE_LENGTH) ==>
                var answer := Answer(old(State()), AskToJoin(group, user, message, id));
                && (r.Ok? <==> answer.Ok?)
                && (answer.Ok? ==> State() == answer.value)
                && (answer.Refused? ==> r == Refused(answer.status))
      ensures r.Refused? ==> State() == old(State())
      ensures r.Ok? ==>
            r.value in requests.Values && r.value.group == group && r.value.user == user && r.value.message == message
      ensures r.Ok? ==> (r.value.status == Approved <==> (group, user) in members)
      ensures r == Refused(404) <==>
                !TooLong(message, MESSAGE_LENGTH) && (group !in old(groups) || old(groups)[group].archived)
      ensures r == Refused(409) <==>
                !TooLong(message, MESSAGE_LENGTH) && group in old(groups) && !old(groups)[group].archived
                && ((group, user) in old(members) || old(Waiting(group, user)))
      ensures r.Refused? ==> r.status in {422, 404, 409}
      ensures r.Ok? ==> r.value.status == if old(groups)[group].approvalRequired then Pending else Approved
      ensures r.Ok? ==> groups == old(groups) && audits == old(audits)
      ensures r.Ok? ==>
            members == if r.value.status == Approved then old(members)[(group, user) := Member] else old(members)
      ensures r.Ok? ==> AsksOn(old(State()), group, user, id, requests, r.value)
    {
      if TooLong(message, MESSAGE_LENGTH) { return Refused(422); }
      ghost var before := State();
      var existing := Existing(group, user);
      JoinAnswers(before, group, user, message, id, existing);
      if group !in groups || groups[group].archived { return Refused(404); }
      if (group, user) in members { return Refused(409); }
      if existing.Some? && requests[existing.value].status == Pending { return Refused(409); }
      if !groups[group].approvalRequired {
        members := members[(group, user) := Member];
      }
      var key := if existing.Some? then existing.value else id;
      var req := if existing.Some? then requests[existing.value] else Request(group, user, Pending, None, None, None);
      req := req.(message := message);
      req := req.(status := if !groups[group].approvalRequired then Approved else Pending);
      requests := requests[key := req];
      assert requests[key] == req;
      return Ok(req);
    }

    ghost predicate IsPending(group: GroupId, request: RequestId)
      reads this
    {
      request in requests && requests[request].group == group && requests[request].status == Pending
    }

    method DecideRequest(group: GroupId, request: RequestId, approve: bool, user: UserId, now: int)
      returns (r: Outcome<Request>)
      requires Valid()
      modifies this
      ensures Valid()
      ensures var answer := Answer(old(State()), DecideOn(group, request, user, approve, now));
              && (r.Ok? <==> answer.Ok?)
              && (answer.Ok? ==> State() == answer.value && request in requests && r.value == requests[request])
              && (answer.Refused? ==> r == Refused(answer.status) && State() == old(State()))
      ensures r == Refused(403) <==> !old(Manages(group, user))
      ensures r == Refused(404) <==> old(Manages(group, user) && !IsPending(group, request))
      ensures r == Refused(500) <==>
                old(Manages(group, user) && IsPending(group, request) && approve
                    && (group, requests[request].user) in members)
      ensures r.Refused? ==> r.status in {403, 404, 500}
      ensures r.Ok? ==> r.value.status == if approve then Approved else Rejected
      ensures r.Ok? ==> r.value.decidedBy == Some(user) && r.value.decidedAt == Some(now)
      ensures r.Ok? ==> request in old(requests) && requests == old(requests)[request := r.value]
      ensures r.Ok? ==> r.value.group == group && r.value.user == old(requests)[request].user
      ensures r.Ok? ==> r.value.message == old(requests)[request].message && groups == old(groups)
      ensures r.Ok? ==> members == if approve then old(members)[(group, r.value.user) := Member] else old(members)
      ensures r.Ok? ==>
            audits == if approve then old(audits) + [MemberAdded(user, group, r.value.user)] else old(audits)
    {
      var admin := RequireAdminMember(group, user);
      if admin.Refused? { return Refused(admin.status); }
      if request !in requests || requests[request].group != group || requests[request].status != Pending {
        return Refused(404);
      }
      var req := requests[request];
      req := req.(status := if approve then Approved else Rejected);
      req := req.(decidedBy := Some(user), decidedAt := Some(now));
      if approve {
        // the insert breaks the unique index: the transaction is rolled back
        if (group, req.user) in members { return Refused(500); }
        members := members[(group, req.user) := Member];
        audits := audits + [MemberAdded(user, group, req.user)];
      }
      requests := requests[request := req];
      return Ok(req);
    }
  }
}
