/** Groups, memberships and join requests: what an endpoint reads before it writes, and what it
    then commits, possibly after other requests have committed. */
module Groups {
  import opened Common

  type UserId = string
  type GroupId = nat
  type RequestId = nat

  /** A role string outside the table ranks with the observer. */
  datatype Role = Observer | Member | Moderator | Admin | Owner | Other(name: string)

  datatype Status = Pending | Approved | Rejected

  datatype Group = Group(archived: bool, onlyAdminsCanPost: bool, announcement: bool, approvalRequired: bool)

  datatype Request = Request(group: GroupId, user: UserId, status: Status, message: Option<string>,
                             decidedBy: Option<UserId>, decidedAt: Option<int>)

  datatype Audit =
    | GroupCreated(actor: UserId, group: GroupId)
    | MemberAdded(actor: UserId, group: GroupId, user: UserId)

  /** The unique index on (group, user) makes the pair the key of a membership; requests have
      their own ids, and a second unique index on (group, user). */
  datatype Store = Store(groups: map<GroupId, Group>, members: map<(GroupId, UserId), Role>,
                         requests: map<RequestId, Request>, audits: seq<Audit>)

  const EMPTY := Store(map[], map[], map[], [])

  // ---------------------------------------------------------------- roles

  function Rank(role: Role): nat {
    match role
    case Observer => 0
    case Member => 1
    case Moderator => 2
    case Admin => 3
    case Owner => 4
    case Other(_) => 0
  }

  predicate CanManageMembers(role: Role) {
    Rank(role) >= Rank(Admin)
  }

  predicate IsAdminMember(s: Store, group: GroupId, user: UserId) {
    (group, user) in s.members && CanManageMembers(s.members[(group, user)])
  }

  // ---------------------------------------------------------------- what is read

  predicate IsRequestOf(s: Store, id: RequestId, group: GroupId, user: UserId) {
    id in s.requests && s.requests[id].group == group && s.requests[id].user == user
  }

  predicate Requested(s: Store, group: GroupId, user: UserId) {
    exists id :: id in s.requests && IsRequestOf(s, id, group, user)
  }

  /** What a handler has read and decided to do: the row it found is part of it. */
  datatype Intent =
    | Join(group: GroupId, user: UserId, message: Option<string>, existing: Option<RequestId>)
    | Decide(group: GroupId, request: RequestId, admin: UserId, approve: bool, now: int)

  /** The reads of `request_join` and `decide_request` that let them go on to write. */
  predicate Admits(s: Store, intent: Intent) {
    match intent
    case Join(group, user, _, existing) =>
      && group in s.groups && !s.groups[group].archived
      && (group, user) !in s.members
      && (if existing.None? then !Requested(s, group, user)
          else IsRequestOf(s, existing.value, group, user) && s.requests[existing.value].status != Pending)
    case Decide(group, request, admin, _, _) =>
      && IsAdminMember(s, group, admin)
      && request in s.requests && s.requests[request].group == group && s.requests[request].status == Pending
  }

  // ---------------------------------------------------------------- what is committed

  function Created(s: Store, id: GroupId, user: UserId, announcement: bool, approvalRequired: bool): Store {
    s.(groups := s.groups[id := Group(false, false, announcement, approvalRequired)],
       members := s.members[(id, user) := Owner],
       audits := s.audits + [GroupCreated(user, id)])
  }

  /** An open group lets the user in at once. A second row for the same pair breaks a unique
      index, and the transaction with it. */
  function Joined(s: Store, group: GroupId, user: UserId, message: Option<string>, existing: Option<RequestId>,
                  id: RequestId): Outcome<Store>
    requires group in s.groups && (existing.Some? ==> existing.value in s.requests)
  {
    var admitted := !s.groups[group].approvalRequired;
    if (admitted && (group, user) in s.members) || (existing.None? && (Requested(s, group, user) || id in s.requests))
    then Refused(500)
    else
      var row := if existing.Some? then s.requests[existing.value] else Request(group, user, Pending, None, None, None);
      Ok(s.(members := if admitted then s.members[(group, user) := Member] else s.members,
            requests := s.requests[(if existing.Some? then existing.value else id) :=
              row.(message := message, status := if admitted then Approved else Pending)]))
  }

  function Decided(s: Store, group: GroupId, request: RequestId, admin: UserId, approve: bool, now: int): Outcome<Store>
    requires request in s.requests
  {
    var row := s.requests[request];
    var status := if approve then Approved else Rejected;
    var rows := s.requests[request := row.(status := status, decidedBy := Some(admin), decidedAt := Some(now))];
    if !approve then Ok(s.(requests := rows))
    else if (group, row.user) in s.members then Refused(500)
    else Ok(s.(requests := rows, members := s.members[(group, row.user) := Member],
               audits := s.audits + [MemberAdded(admin, group, row.user)]))
  }

  predicate Refers(s: Store, intent: Intent) {
    match intent
    case Join(group, user, _, existing) =>
      group in s.groups && (existing.Some? ==> IsRequestOf(s, existing.value, group, user))
    case Decide(group, request, _, _, _) => request in s.requests && s.requests[request].group == group
  }

  /** `id` is the key of a row inserted. */
  function Committed(s: Store, intent: Intent, id: RequestId): Outcome<Store>
    requires Refers(s, intent)
  {
    match intent
    case Join(group, user, message, existing) => Joined(s, group, user, message, existing, id)
    case Decide(group, request, admin, approve, now) => Decided(s, group, request, admin, approve, now)
  }

  // ---------------------------------------------------------------- invariants

  predicate IsOwner(s: Store, group: GroupId, user: UserId) {
    (group, user) in s.members && s.members[(group, user)] == Owner
  }

  ghost predicate OneOwner(s: Store) {
    && (forall key | key in s.members :: key.0 in s.groups && s.members[key] in {Member, Owner})
    && (forall group | group in s.groups :: exists user :: IsOwner(s, group, user))
    && (forall group, a, b | IsOwner(s, group, a) && IsOwner(s, group, b) :: a == b)
  }

  /** The second unique index. */
  ghost predicate UniqueRequests(s: Store) {
    forall a, b | a in s.requests && b in s.requests && s.requests[a].group == s.requests[b].group
                  && s.requests[a].user == s.requests[b].user :: a == b
  }

  ghost predicate OneRequest(s: Store) {
    && UniqueRequests(s)
    && (forall id | id in s.requests ::
          s.requests[id].group in s.groups && !IsOwner(s, s.requests[id].group, s.requests[id].user))
  }

  /** Who was let in has asked. */
  ghost predicate Asked(s: Store) {
    forall key | key in s.members && s.members[key] != Owner :: Requested(s, key.0, key.1)
  }

  predicate WasAdded(audits: seq<Audit>, group: GroupId, user: UserId) {
    exists i :: 0 <= i < |audits| && audits[i].MemberAdded? && audits[i].group == group && audits[i].user == user
  }

  /** One for one: in groups that require approval each member but the owner has an audit row,
      no pair has two, and each row names such a member, let in by the owner. */
  ghost predicate Audited(s: Store) {
    && (forall key | key in s.members && s.members[key] != Owner
                     && key.0 in s.groups && s.groups[key.0].approvalRequired ::
          WasAdded(s.audits, key.0, key.1))
    && (forall i | 0 <= i < |s.audits| && s.audits[i].MemberAdded? :: AddedOk(s, s.audits[i]))
    && (forall i, j | 0 <= i < j < |s.audits| && s.audits[i].MemberAdded? && s.audits[j].MemberAdded? ::
          (s.audits[i].group, s.audits[i].user) != (s.audits[j].group, s.audits[j].user))
  }

  ghost predicate AddedOk(s: Store, a: Audit)
    requires a.MemberAdded?
  {
    && a.group in s.groups && s.groups[a.group].approvalRequired
    && (a.group, a.user) in s.members && !IsOwner(s, a.group, a.user) && IsOwner(s, a.group, a.actor)
  }

  /** Nothing is pending in an open group. */
  ghost predicate NothingPendsOpen(s: Store) {
    forall id | id in s.requests && s.requests[id].group in s.groups
                && !s.groups[s.requests[id].group].approvalRequired ::
      s.requests[id].status != Pending
  }

  ghost predicate Base(s: Store) {
    OneOwner(s) && OneRequest(s) && Asked(s) && Audited(s) && NothingPendsOpen(s)
  }

  /** A request is approved exactly when its user is a member; so PENDING means not a member,
      and a non-owner is a member exactly when the request is APPROVED. */
  ghost predicate Consistent(s: Store) {
    forall id | id in s.requests :: s.requests[id].status == Approved <==>
      (s.requests[id].group, s.requests[id].user) in s.members
  }

  /** What stays true of what a handler read. */
  ghost predicate Stands(s: Store, intent: Intent) {
    && Refers(s, intent)
    && match intent
       case Join(group, user, _, _) => !IsOwner(s, group, user)
       case Decide(group, _, admin, _, _) =>
         IsOwner(s, group, admin) && group in s.groups && s.groups[group].approvalRequired
  }

  lemma CreateKeepsOwners(s: Store, id: GroupId, user: UserId, t: Store)
    requires OneOwner(s) && id !in s.groups
    requires t.groups.Keys == s.groups.Keys + {id} && t.members == s.members[(id, user) := Owner]
    ensures OneOwner(t)
    ensures forall group, u :: group != id ==> (IsOwner(t, group, u) <==> IsOwner(s, group, u))
  {
    forall group, u ensures group != id ==> (IsOwner(t, group, u) <==> IsOwner(s, group, u)) {}
    forall group | group in t.groups ensures exists u :: IsOwner(t, group, u) {
      if group == id {
        assert IsOwner(t, id, user);
      } else {
        var u :| IsOwner(s, group, u);
        assert IsOwner(t, group, u);
      }
    }
    forall group, a, b | IsOwner(t, group, a) && IsOwner(t, group, b) ensures a == b {
      if group != id { assert IsOwner(s, group, a) && IsOwner(s, group, b); }
    }
  }

  /** Only ordinary members have been added. */
  lemma KeepsOwners(s: Store, t: Store)
    requires OneOwner(s) && t.groups == s.groups
    requires forall key | key in s.members :: key in t.members && t.members[key] == s.members[key]
    requires forall key | key in t.members && key !in s.members :: key.0 in s.groups && t.members[key] == Member
    ensures OneOwner(t)
    ensures forall group, user :: IsOwner(t, group, user) <==> IsOwner(s, group, user)
  {
    forall group, user ensures IsOwner(t, group, user) <==> IsOwner(s, group, user) {}
    forall group | group in t.groups ensures exists user :: IsOwner(t, group, user) {
      var user :| IsOwner(s, group, user);
      assert IsOwner(t, group, user);
    }
    forall group, a, b | IsOwner(t, group, a) && IsOwner(t, group, b) ensures a == b {
      assert IsOwner(s, group, a) && IsOwner(s, group, b);
    }
  }

  /** Requests keep their pair; only who has asked has been added. */
  lemma KeepsAsked(s: Store, t: Store)
    requires Asked(s)
    requires forall r | r in s.requests ::
               r in t.requests && t.requests[r].group == s.requests[r].group && t.requests[r].user == s.requests[r].user
    requires forall key | key in t.members && t.members[key] != Owner && !(key in s.members
          && s.members[key] != Owner) :: Requested(t, key.0, key.1)
    ensures Asked(t)
  {}

  lemma CreateKeepsRequests(s: Store, id: GroupId, t: Store)
    requires OneRequest(s) && NothingPendsOpen(s) && id !in s.groups && t.requests == s.requests
    requires forall group | group in s.groups :: group in t.groups && t.groups[group] == s.groups[group]
    requires forall group, u :: group != id ==> (IsOwner(t, group, u) <==> IsOwner(s, group, u))
    ensures OneRequest(t) && NothingPendsOpen(t)
  {
    assert forall r | r in s.requests :: s.requests[r].group != id;
  }

  lemma CreateKeepsBase(s: Store, id: GroupId, user: UserId, announcement: bool, approvalRequired: bool, t: Store)
    requires Base(s) && id !in s.groups && t == Created(s, id, user, announcement, approvalRequired)
    ensures Base(t)
  {
    CreateKeepsOwners(s, id, user, t);
    KeepsAsked(s, t);
    CreateKeepsRequests(s, id, t);
    CreateKeepsAudits(s, id, user, t);
  }

  lemma CreateKeepsAudits(s: Store, id: GroupId, user: UserId, t: Store)
    requires OneOwner(s) && Audited(s) && id !in s.groups
    requires forall group | group in s.groups :: group in t.groups && t.groups[group] == s.groups[group]
    requires t.groups.Keys == s.groups.Keys + {id}
    requires t.members == s.members[(id, user) := Owner] && t.audits == s.audits + [GroupCreated(user, id)]
    requires forall group, u :: group != id ==> (IsOwner(t, group, u) <==> IsOwner(s, group, u))
    ensures Audited(t)
  {
    forall i | 0 <= i < |t.audits| && t.audits[i].MemberAdded? ensures AddedOk(t, t.audits[i]) {
      assert AddedOk(s, s.audits[i]);
    }
    forall key | key in t.members && t.members[key] != Owner && key.0 in t.groups && t.groups[key.0].approvalRequired
      ensures WasAdded(t.audits, key.0, key.1)
    {
      assert key in s.members && key.0 in s.groups;
      AddedStays(s.audits, t.audits, key.0, key.1);
    }
  }

  lemma AddedStays(audits: seq<Audit>, more: seq<Audit>, group: GroupId, user: UserId)
    requires audits <= more && WasAdded(audits, group, user)
    ensures WasAdded(more, group, user)
  {
    var i :| 0 <= i < |audits| && audits[i].MemberAdded? && audits[i].group == group && audits[i].user == user;
    assert more[i] == audits[i];
  }

  /** No row goes, no request changes its pair, and only ordinary members are added. */
  ghost predicate Extends(s: Store, t: Store) {
    && t.groups == s.groups
    && (forall key | key in s.members :: key in t.members && t.members[key] == s.members[key])
    && (forall key | key in t.members && key !in s.members :: key.0 in s.groups && t.members[key] == Member)
    && (forall r | r in s.requests ::
          r in t.requests && t.requests[r].group == s.requests[r].group && t.requests[r].user == s.requests[r].user)
  }

  lemma CommitExtends(s: Store, intent: Intent, id: RequestId)
    requires OneRequest(s) && Stands(s, intent) && Committed(s, intent, id).Ok?
    ensures Extends(s, Committed(s, intent, id).value)
  {}

  ghost predicate SameOwners(s: Store, t: Store) {
    forall group, user :: IsOwner(t, group, user) <==> IsOwner(s, group, user)
  }

  lemma CommitKeepsOwners(s: Store, intent: Intent, id: RequestId, t: Store)
    requires OneOwner(s) && OneRequest(s) && Stands(s, intent) && Committed(s, intent, id) == Ok(t)
    ensures OneOwner(t) && SameOwners(s, t)
  {
    CommitExtends(s, intent, id);
    KeepsOwners(s, t);
  }

  lemma JoinKeepsOneRequest(s: Store, intent: Intent, id: RequestId, t: Store)
    requires OneRequest(s) && Stands(s, intent) && intent.Join? && Committed(s, intent, id) == Ok(t)
    requires SameOwners(s, t)
    ensures OneRequest(t)
  {}

  lemma JoinAsks(s: Store, intent: Intent, id: RequestId)
    requires Stands(s, intent) && intent.Join? && Committed(s, intent, id).Ok?
    ensures Requested(Committed(s, intent, id).value, intent.group, intent.user)
    ensures Committed(s, intent, id).value.audits == s.audits
    ensures forall key | key in Committed(s, intent, id).value.members ::
              key in s.members || key == (intent.group, intent.user)
  {
    var t := Committed(s, intent, id).value;
    assert IsRequestOf(t, if intent.existing.Some? then intent.existing.value else id, intent.group, intent.user);
  }

  lemma JoinKeepsAsked(s: Store, intent: Intent, id: RequestId, t: Store)
    requires OneRequest(s) && Asked(s) && Stands(s, intent) && intent.Join? && Committed(s, intent, id) == Ok(t)
    ensures Asked(t)
  {
    CommitExtends(s, intent, id);
    JoinAsks(s, intent, id);
    KeepsAsked(s, t);
  }

  lemma JoinKeepsAudited(s: Store, intent: Intent, id: RequestId, t: Store)
    requires OneOwner(s) && Audited(s) && Stands(s, intent) && intent.Join? && Committed(s, intent, id) == Ok(t)
    requires SameOwners(s, t)
    ensures Audited(t)
  {
    JoinAsks(s, intent, id);
    KeepsAudits(s, t);
  }

  lemma JoinKeepsPending(s: Store, intent: Intent, id: RequestId, t: Store)
    requires NothingPendsOpen(s) && Stands(s, intent) && intent.Join? && Committed(s, intent, id) == Ok(t)
    ensures NothingPendsOpen(t)
  {}

  lemma KeepsAudits(s: Store, t: Store)
    requires Audited(s) && t.audits == s.audits && t.groups == s.groups
    requires forall key | key in s.members :: key in t.members
    requires forall key | key in t.members && t.members[key] != Owner
                          && key.0 in t.groups && t.groups[key.0].approvalRequired ::
               key in s.members && s.members[key] != Owner
    requires forall group, user :: IsOwner(t, group, user) <==> IsOwner(s, group, user)
    ensures Audited(t)
  {
    forall i | 0 <= i < |t.audits| && t.audits[i].MemberAdded? ensures AddedOk(t, t.audits[i]) {
      assert AddedOk(s, s.audits[i]);
    }
  }

  lemma DecideKeepsRequests(s: Store, intent: Intent, id: RequestId, t: Store)
    requires OneRequest(s) && NothingPendsOpen(s) && SameOwners(s, t)
    requires Stands(s, intent) && intent.Decide? && Committed(s, intent, id) == Ok(t)
    ensures OneRequest(t) && NothingPendsOpen(t)
  {}

  lemma DecideKeepsAsked(s: Store, intent: Intent, id: RequestId, t: Store)
    requires Asked(s) && Stands(s, intent) && intent.Decide? && Committed(s, intent, id) == Ok(t)
    ensures Asked(t)
  {
    assert IsRequestOf(t, intent.request, intent.group, s.requests[intent.request].user);
    KeepsAsked(s, t);
  }

  lemma DecideKeepsAudited(s: Store, intent: Intent, id: RequestId, t: Store)
    requires OneOwner(s) && Audited(s) && SameOwners(s, t)
    requires Stands(s, intent) && intent.Decide? && Committed(s, intent, id) == Ok(t)
    ensures Audited(t)
  {
    if intent.approve {
      AddsAudit(s, t, intent.admin, intent.group, s.requests[intent.request].user);
    } else {
      KeepsAudits(s, t);
    }
  }

  lemma AddsAudit(s: Store, t: Store, actor: UserId, group: GroupId, user: UserId)
    requires Audited(s) && t.audits == s.audits + [MemberAdded(actor, group, user)] && t.groups == s.groups
    requires group in s.groups && s.groups[group].approvalRequired && IsOwner(s, group, actor)
    requires (group, user) !in s.members && t.members == s.members[(group, user) := Member]
    requires forall group, user :: IsOwner(t, group, user) <==> IsOwner(s, group, user)
    ensures Audited(t)
  {
    forall i | 0 <= i < |t.audits| && t.audits[i].MemberAdded? ensures AddedOk(t, t.audits[i]) {
      if i < |s.audits| { assert AddedOk(s, s.audits[i]); }
    }
    forall i | 0 <= i < |s.audits| && s.audits[i].MemberAdded?
      ensures (s.audits[i].group, s.audits[i].user) != (group, user) {
      assert AddedOk(s, s.audits[i]);
    }
    forall key | key in t.members && t.members[key] != Owner && key.0 in t.groups && t.groups[key.0].approvalRequired
      ensures WasAdded(t.audits, key.0, key.1)
    {
      if key in s.members {
        AddedStays(s.audits, t.audits, key.0, key.1);
      } else {
        assert t.audits[|s.audits|] == MemberAdded(actor, key.0, key.1);
      }
    }
  }

  /** Whatever has been committed in between, a commit keeps the base: the unique indexes hold,
      each group keeps its one owner, and members and audits match. */
  lemma CommitKeepsBase(s: Store, intent: Intent, id: RequestId, t: Store)
    requires Base(s) && Stands(s, intent) && Committed(s, intent, id) == Ok(t)
    ensures Base(t)
  {
    CommitKeepsOwners(s, intent, id, t);
    if intent.Join? {
      JoinKeepsOneRequest(s, intent, id, t);
      JoinKeepsAsked(s, intent, id, t);
      JoinKeepsAudited(s, intent, id, t);
      JoinKeepsPending(s, intent, id, t);
    } else {
      DecideKeepsRequests(s, intent, id, t);
      DecideKeepsAsked(s, intent, id, t);
      DecideKeepsAudited(s, intent, id, t);
    }
  }

  /** What a handler read about owners and keys stays true, whatever commits. */
  lemma StandsStays(s: Store, t: Store, intent: Intent)
    requires Stands(s, intent)
    requires forall group | group in s.groups :: group in t.groups && t.groups[group] == s.groups[group]
    requires forall group, user :: group in s.groups ==> (IsOwner(t, group, user) <==> IsOwner(s, group, user))
    requires forall r | r in s.requests ::
               r in t.requests && t.requests[r].group == s.requests[r].group && t.requests[r].user == s.requests[r].user
    requires OneRequest(s)
    ensures Stands(t, intent)
  {}

  lemma AdmittedStands(s: Store, intent: Intent)
    requires Base(s) && Admits(s, intent)
    ensures Stands(s, intent)
  {}

  // ---------------------------------------------------------------- overruling

  /** The commit would turn a request that has been approved by now into something else. */
  predicate Overrules(s: Store, intent: Intent, id: RequestId) {
    && Refers(s, intent) && Committed(s, intent, id).Ok?
    && match intent
       case Join(group, _, _, existing) =>
         existing.Some? && s.requests[existing.value].status == Approved && s.groups[group].approvalRequired
       case Decide(_, request, _, approve, _) => s.requests[request].status == Approved && !approve
  }

  /** A commit keeps requests and memberships consistent if and only if it does not overrule. */
  lemma ConsistentUnlessOverruled(s: Store, intent: Intent, id: RequestId)
    requires Base(s) && Consistent(s) && Stands(s, intent) && Committed(s, intent, id).Ok?
    ensures Consistent(Committed(s, intent, id).value) <==> !Overrules(s, intent, id)
  {
    var t := Committed(s, intent, id).value;
    match intent
    case Join(group, user, _, existing) =>
      assert forall r | r in s.requests :: IsRequestOf(s, r, s.requests[r].group, s.requests[r].user);
      if Overrules(s, intent, id) {
        assert t.requests[existing.value].status == Pending && (group, user) in t.members;
      }
    case Decide(group, request, _, approve, _) =>
      if Overrules(s, intent, id) {
        assert t.requests[request].status == Rejected && (group, t.requests[request].user) in t.members;
      }
  }

  // ---------------------------------------------------------------- interleaved handlers

  /** Handlers hold what they have read; any of them may commit next, or be dropped. */
  datatype Sys = Sys(store: Store, handlers: map<nat, Intent>)

  datatype Step =
    | Create(id: GroupId, user: UserId, announcement: bool, approvalRequired: bool)
    | Begin(h: nat, intent: Intent)
    | Commit(h: nat, id: RequestId)
    | Drop(h: nat)

  function Next(s: Sys, step: Step): Sys {
    match step
    case Create(id, user, announcement, approvalRequired) =>
      if id in s.store.groups then s else s.(store := Created(s.store, id, user, announcement, approvalRequired))
    case Begin(h, intent) =>
      if h in s.handlers || !Admits(s.store, intent) then s else s.(handlers := s.handlers[h := intent])
    case Commit(h, id) =>
      if h !in s.handlers || !Refers(s.store, s.handlers[h]) then s
      else
        var left := s.(handlers := s.handlers - {h});
        var outcome := Committed(s.store, s.handlers[h], id);
        if outcome.Ok? then left.(store := outcome.value) else left
    case Drop(h) => s.(handlers := s.handlers - {h})
  }

  function Run(steps: seq<Step>): Sys {
    if steps == [] then Sys(EMPTY, map[]) else Next(Run(steps[..|steps| - 1]), steps[|steps| - 1])
  }

  ghost predicate Inv(s: Sys) {
    Base(s.store) && forall h | h in s.handlers :: Stands(s.store, s.handlers[h])
  }

  lemma CreateKeepsInv(s: Sys, step: Step)
    requires Inv(s) && step.Create?
    ensures Inv(Next(s, step))
  {
    var t := Next(s, step);
    if t != s {
      CreateKeepsBase(s.store, step.id, step.user, step.announcement, step.approvalRequired, t.store);
      CreateKeepsOwners(s.store, step.id, step.user, t.store);
      forall h | h in t.handlers
        ensures Stands(t.store, t.handlers[h]) { StandsStays(s.store, t.store, t.handlers[h]); }
    }
  }

  lemma CommitKeepsInv(s: Sys, h: nat, id: RequestId)
    requires Inv(s) && h in s.handlers
    ensures Inv(Next(s, Commit(h, id)))
  {
    var intent := s.handlers[h];
    var t := Next(s, Commit(h, id));
    if Committed(s.store, intent, id).Ok? {
      CommitKeepsBase(s.store, intent, id, t.store);
      CommitExtends(s.store, intent, id);
      CommitKeepsOwners(s.store, intent, id, t.store);
      forall g | g in t.handlers
        ensures Stands(t.store, t.handlers[g]) { StandsStays(s.store, t.store, s.handlers[g]); }
    }
  }

  lemma {:induction false} RunKeepsInv(steps: seq<Step>)
    ensures Inv(Run(steps))
  {
    if steps != [] {
      var s, step := Run(steps[..|steps| - 1]), steps[|steps| - 1];
      RunKeepsInv(steps[..|steps| - 1]);
      match step
      case Create(_, _, _, _) => CreateKeepsInv(s, step);
      case Begin(_, intent) => if Admits(s.store, intent) { AdmittedStands(s.store, intent); }
      case Commit(h, id) => if h in s.handlers { CommitKeepsInv(s, h, id); }
      case Drop(_) =>
    }
  }

  predicate OverrulingStep(s: Sys, step: Step) {
    step.Commit? && step.h in s.handlers && Overrules(s.store, s.handlers[step.h], step.id)
  }

  lemma StepConsistent(s: Sys, step: Step)
    requires Inv(s) && Consistent(s.store)
    ensures Consistent(Next(s, step).store) <==> !OverrulingStep(s, step)
  {
    match step
    case Create(id, user, announcement, approvalRequired) =>
      if id !in s.store.groups { assert forall r | r in s.store.requests :: s.store.requests[r].group != id; }
    case Begin(_, _) =>
    case Commit(h, id) =>
      if h in s.handlers && Committed(s.store, s.handlers[h], id).Ok? {
        ConsistentUnlessOverruled(s.store, s.handlers[h], id);
      }
    case Drop(_) =>
  }

  ghost predicate AlwaysConsistent(steps: seq<Step>) {
    && Consistent(Run(steps).store)
    && (steps != [] ==> AlwaysConsistent(steps[..|steps| - 1]))
  }

  predicate NeverOverruled(steps: seq<Step>) {
    steps != [] ==>
      var front := steps[..|steps| - 1];
      !OverrulingStep(Run(front), steps[|steps| - 1]) && NeverOverruled(front)
  }

  lemma OwnersManage(s: Store, group: GroupId, user: UserId)
    requires OneOwner(s)
    ensures IsAdminMember(s, group, user) <==> IsOwner(s, group, user)
  {}

  /** Under every interleaving: every group keeps exactly one owner, who alone may decide; no
      user has two requests for a group; and whoever is a member owns it or has asked. */
  lemma GroupsAreSound(steps: seq<Step>)
    ensures var s := Run(steps).store;
            && (forall group | group in s.groups :: exists user :: IsOwner(s, group, user))
            && (forall group, a, b | IsOwner(s, group, a) && IsOwner(s, group, b) :: a == b)
            && (forall group, user :: IsAdminMember(s, group, user) <==> IsOwner(s, group, user))
            && (forall a, b, group, user | IsRequestOf(s, a, group, user) && IsRequestOf(s, b, group, user) :: a == b)
            && (forall key | key in s.members :: IsOwner(s, key.0, key.1) || Requested(s, key.0, key.1))
            && (forall group, user | group in s.groups && s.groups[group].approvalRequired ::
                  (group, user) in s.members && !IsOwner(s, group, user) <==> WasAdded(s.audits, group, user))
            && (forall i, j | 0 <= i < j < |s.audits| && s.audits[i].MemberAdded? && s.audits[j].MemberAdded? ::
                  (s.audits[i].group, s.audits[i].user) != (s.audits[j].group, s.audits[j].user))
            && (forall i | 0 <= i < |s.audits| && s.audits[i].MemberAdded? ::
                  IsOwner(s, s.audits[i].group, s.audits[i].actor))
  {
    RunKeepsInv(steps);
    var s := Run(steps).store;
    assert Base(s);
    forall group, user
      ensures IsAdminMember(s, group, user) <==> IsOwner(s, group, user) { OwnersManage(s, group, user); }
    forall key | key in s.members ensures IsOwner(s, key.0, key.1) || Requested(s, key.0, key.1) {
      assert key == (key.0, key.1);
    }
    forall i | 0 <= i < |s.audits| && s.audits[i].MemberAdded? ensures AddedOk(s, s.audits[i]) {}
    forall group, user | group in s.groups && s.groups[group].approvalRequired
      ensures (group, user) in s.members && !IsOwner(s, group, user) <==> WasAdded(s.audits, group, user)
    {
      MembersWereAdded(s, group, user);
    }
  }

  lemma MembersWereAdded(s: Store, group: GroupId, user: UserId)
    requires Audited(s) && group in s.groups && s.groups[group].approvalRequired
    ensures (group, user) in s.members && !IsOwner(s, group, user) <==> WasAdded(s.audits, group, user)
  {
    var key := (group, user);
    if key in s.members && s.members[key] != Owner { assert WasAdded(s.audits, key.0, key.1); }
    if WasAdded(s.audits, group, user) {
      var i :| 0 <= i < |s.audits| && s.audits[i].MemberAdded? && s.audits[i].group == group
      && s.audits[i].user == user;
      assert AddedOk(s, s.audits[i]);
    }
  }

  /** A run is consistent all along if and only if no commit overrules an approval. */
  lemma {:induction false} ConsistencyIsExact(steps: seq<Step>)
    ensures AlwaysConsistent(steps) <==> NeverOverruled(steps)
  {
    if steps != [] {
      var front := steps[..|steps| - 1];
      ConsistencyIsExact(front);
      RunKeepsInv(front);
      if AlwaysConsistent(front) { StepConsistent(Run(front), steps[|steps| - 1]); }
    }
  }

  /** Two decisions begun together can do this: the request is left rejected while its user is
      a member, who can neither ask again nor be decided on. */
  lemma DecisionsRace(s: Sys, h: nat, g: nat, approve: Intent, reject: Intent, id: RequestId)
    requires Inv(s) && Consistent(s.store) && h != g && h !in s.handlers && g !in s.handlers
    requires approve.Decide? && approve.approve && reject.Decide? && !reject.approve
             && reject.request == approve.request
    requires Admits(s.store, approve) && Admits(s.store, reject)
    ensures var begun := Next(Next(s, Begin(h, approve)), Begin(g, reject));
            var t := Next(Next(begun, Commit(h, id)), Commit(g, id));
            approve.request in t.store.requests &&
            var was, row := s.store.requests[approve.request], t.store.requests[approve.request];
            && row.group == was.group && row.user == was.user && row.status == Rejected
            && (row.group, row.user) in t.store.members
            && (forall message, existing :: !Admits(t.store, Join(row.group, row.user, message, existing)))
            && (forall admin, verdict, now :: !Admits(t.store, Decide(row.group, approve.request, admin, verdict, now)))
  {}

  lemma RunSnoc(steps: seq<Step>, step: Step)
    ensures Run(steps + [step]) == Next(Run(steps), step)
  {
    assert (steps + [step])[..|steps|] == steps;
  }

  /** A group, and one request in it. */
  lemma AskFromStart(group: GroupId, owner: UserId, user: UserId, request: RequestId) returns (steps: seq<Step>)
    requires owner != user
    ensures var s := Run(steps);
            && s.handlers == map[] && s.store.groups == map[group := Group(false, false, false, true)]
            && s.store.members == map[(group, owner) := Owner]
            && s.store.requests == map[request := Request(group, user, Pending, None, None, None)]
  {
    var ask := Join(group, user, None, None);
    var one := [] + [Create(group, owner, false, true)];
    RunSnoc([], Create(group, owner, false, true));
    var two := one + [Begin(0, ask)];
    RunSnoc(one, Begin(0, ask));
    assert Admits(Run(one).store, ask);
    RunSnoc(two, Commit(0, request));
    steps := two + [Commit(0, request)];
  }

  /** The race from the start: the owner decides that request twice at once. */
  lemma RaceFromStart(group: GroupId, owner: UserId, user: UserId, request: RequestId) returns (steps: seq<Step>)
    requires owner != user
    ensures var s := Run(steps).store;
            request in s.requests && s.requests[request].status == Rejected && (group, user) in s.members
  {
    var asked := AskFromStart(group, owner, user, request);
    RunKeepsInv(asked);
    steps := RaceOn(asked, group, owner, user, request);
  }

  lemma FourMore(steps: seq<Step>, a: Step, b: Step, c: Step, d: Step) returns (more: seq<Step>)
    ensures Run(more) == Next(Next(Next(Next(Run(steps), a), b), c), d)
  {
    RunSnoc(steps, a);
    RunSnoc(steps + [a], b);
    RunSnoc(steps + [a] + [b], c);
    RunSnoc(steps + [a] + [b] + [c], d);
    more := steps + [a] + [b] + [c] + [d];
  }

  lemma RaceOn(asked: seq<Step>, group: GroupId, owner: UserId, user: UserId, request: RequestId)
    returns (steps: seq<Step>)
    requires var s := Run(asked);
             && Inv(s) && s.handlers == map[] && s.store.groups == map[group := Group(false, false, false, true)]
             && s.store.members == map[(group, owner) := Owner] && owner != user
             && s.store.requests == map[request := Request(group, user, Pending, None, None, None)]
    ensures var s := Run(steps).store;
            request in s.requests && s.requests[request].status == Rejected && (group, user) in s.members
  {
    var s := Run(asked);
    var approve, reject := Decide(group, request, owner, true, 0), Decide(group, request, owner, false, 0);
    assert Admits(s.store, approve) && Admits(s.store, reject);
    DecisionsRace(s, 1, 2, approve, reject, 0);
    steps := FourMore(asked, Begin(1, approve), Begin(2, reject), Commit(1, 0), Commit(2, 0));
  }
}
