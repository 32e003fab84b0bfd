/** When each user operation is accepted, refused or locked out, and the row it
    writes, stated on the users themselves. */
module UserTheorems {
  import opened Ordering
  import opened Text
  import opened UserAdmin

  predicate IsRole(role: string) {
    role == "read_only" || role == "analyst" || role == "admin"
  }

  predicate HasAdminRights(user: User) {
    user.role == "admin" && user.active
  }

  /** Somebody else can still administer. */
  ghost predicate OthersLeft(t: Table, id: int) {
    exists other :: other in t.users && other != id && HasAdminRights(t.users[other])
  }

  lemma RolesExactly(role: string)
    ensures role in ROLES <==> IsRole(role)
  {
  }

  lemma NoneLeftExactly(t: Table, id: int)
    ensures ActiveAdminCount(t.users, Some(id)) == 0 <==> !OthersLeft(t, id)
  {
    var rest := ActiveAdmins(t.users) - {id};
    if rest != {} {
      var other := Pick(rest);
      assert HasAdminRights(t.users[other]);
    }
    if OthersLeft(t, id) {
      var other :| other in t.users && other != id && HasAdminRights(t.users[other]);
      assert other in rest;
    }
  }

  /** A role change is refused for an unknown role or user, locked out exactly
      when it demotes the only active admin, and else writes the role alone. */
  lemma RoleChangeExactly(t: Table, id: int, role: string)
    ensures var v := Decide(t, UpdateRole(id, role));
      && (v == Rejected(InvalidRole) <==> !IsRole(role))
      && (v == Rejected(UserNotFound) <==> IsRole(role) && id !in t.users)
      && (v == LastAdmin <==>
            IsRole(role) && role != "admin" && id in t.users && HasAdminRights(t.users[id]) && !OthersLeft(t, id))
      && (v == Accepted <==> IsRole(role) && id in t.users && v != LastAdmin)
    ensures Decide(t, UpdateRole(id, role)) == Accepted ==>
      id in t.users && Execute(t, UpdateRole(id, role)) == t.(users := t.users[id := t.users[id].(role := role)])
    ensures Decide(t, UpdateRole(id, role)) != Accepted ==> Execute(t, UpdateRole(id, role)) == t
  {
    RolesExactly(role);
    NoneLeftExactly(t, id);
  }

  /** Activating is always accepted for a known user; deactivating is locked out
      exactly for the only active admin. */
  lemma ActivationExactly(t: Table, id: int, active: bool)
    ensures var v := Decide(t, SetActive(id, active));
      && (v == Rejected(UserNotFound) <==> id !in t.users)
      && (v == LastAdmin <==> !active && id in t.users && HasAdminRights(t.users[id]) && !OthersLeft(t, id))
      && (v == Accepted <==> id in t.users && v != LastAdmin)
    ensures Decide(t, SetActive(id, active)) == Accepted ==>
      id in t.users && Execute(t, SetActive(id, active)) == t.(users := t.users[id := t.users[id].(active := active)])
    ensures Decide(t, SetActive(id, active)) != Accepted ==> Execute(t, SetActive(id, active)) == t
  {
    NoneLeftExactly(t, id);
  }

  /** `email` is the given address without white space around it, in lower case. */
  ghost predicate IsNormalized(given: string, email: string) {
    exists t :: IsTrimmed(given, t) && email == Lower(t)
  }

  lemma CleanEmailExactly(given: string)
    ensures IsNormalized(given, CleanEmail(given))
    ensures CleanEmail(given) == "" <==> AllSpace(given)
  {
    StripIsTrimmed(given);
  }

  ghost predicate IsTaken(t: Table, email: string) {
    exists id :: id in t.users && t.users[id].email == email
  }

  /** The first check that fails. */
  function FirstFault(noEmail: bool, noName: bool, knownRole: bool, short: bool, taken: bool): Verdict {
    if noEmail then Rejected(EmailRequired)
    else if noName then Rejected(NameRequired)
    else if !knownRole then Rejected(InvalidRole)
    else if short then Rejected(ShortPassword)
    else if taken then Rejected(DuplicateEmail)
    else Accepted
  }

  lemma CreationVerdict(t: Table, email: string, name: string, role: string, password: string)
    ensures Decide(t, CreateUser(email, name, role, password))
         == FirstFault(CleanEmail(email) == "", Strip(name) == "", role in ROLES, |password| < 8, IsTaken(t, CleanEmail(email)))
  {
  }

  /** The checks of a new user in their order: an address, a name, a known role,
      eight characters of password, and an address nobody has. */
  lemma CreationExactly(t: Table, email: string, name: string, role: string, password: string)
    ensures Decide(t, CreateUser(email, name, role, password))
         == FirstFault(AllSpace(email), AllSpace(name), IsRole(role), |password| < 8, IsTaken(t, CleanEmail(email)))
    ensures IsNormalized(email, CleanEmail(email))
  {
    CreationVerdict(t, email, name, role, password);
    RolesExactly(role);
    CleanEmailExactly(email);
    StripIsTrimmed(name);
  }

  lemma Created(t: Table, email: string, name: string, role: string, password: string)
    requires Decide(t, CreateUser(email, name, role, password)) == Accepted
    ensures !IsTaken(t, CleanEmail(email))
    ensures Execute(t, CreateUser(email, name, role, password))
         == Table(t.users[t.nextId := User(CleanEmail(email), Strip(name), role, true)], t.nextId + 1)
  {
    CreationVerdict(t, email, name, role, password);
  }

  /** An accepted creation adds an active user of the given role under the next
      id, with a normalized address that nobody had, and nothing else. */
  lemma CreationWrites(t: Table, email: string, name: string, role: string, password: string)
    requires Decide(t, CreateUser(email, name, role, password)) == Accepted && IsNumbered(t)
    ensures var after := Execute(t, CreateUser(email, name, role, password));
      && t.nextId !in t.users && after.nextId == t.nextId + 1 && after.users.Keys == t.users.Keys + {t.nextId}
      && (forall id :: id in t.users ==> after.users[id] == t.users[id])
      && IsNormalized(email, after.users[t.nextId].email) && !IsTaken(t, after.users[t.nextId].email)
      && IsTrimmed(name, after.users[t.nextId].displayName)
      && after.users[t.nextId].role == role && after.users[t.nextId].active
  {
    Created(t, email, name, role, password);
    CleanEmailExactly(email);
    StripIsTrimmed(name);
    AddedUser(t, User(CleanEmail(email), Strip(name), role, true));
  }

  lemma AddedUser(t: Table, user: User)
    requires IsNumbered(t)
    ensures var users := t.users[t.nextId := user];
      && t.nextId !in t.users && users.Keys == t.users.Keys + {t.nextId} && users[t.nextId] == user
      && forall id :: id in t.users ==> users[id] == t.users[id]
  {
  }

  // ----- what every operation keeps -----

  /** Each user has one of the three roles, and no two have one address. */
  ghost predicate AreWellFormed(t: Table) {
    && IsNumbered(t)
    && (forall id :: id in t.users ==> IsRole(t.users[id].role))
    && (forall i, j :: i in t.users && j in t.users && i != j ==> t.users[i].email != t.users[j].email)
  }

  predicate IsWellFormedChange(op: Operation) {
    !op.CreateUser? && (op.UpdateRole? ==> IsRole(op.role))
  }

  lemma PerformKeepsUsers(t: Table, op: Operation)
    requires AreWellFormed(t) && IsWellFormedChange(op)
    ensures AreWellFormed(Perform(t, op))
  {
  }

  lemma AcceptedIsWellFormed(t: Table, op: Operation)
    requires op.CreateUser? && ComplaintAbout(t, op) == None
    ensures IsRole(op.newRole) && !IsTaken(t, CleanEmail(op.email))
  {
    RolesExactly(op.newRole);
  }

  lemma InsertKeepsUsers(t: Table, op: Operation)
    requires AreWellFormed(t) && op.CreateUser? && IsRole(op.newRole) && !IsTaken(t, CleanEmail(op.email))
    ensures AreWellFormed(Perform(t, op))
  {
  }

  /** No operation, accepted or not, gives a user an unknown role or two users
      one address. */
  lemma ExecuteKeepsUsers(t: Table, op: Operation)
    requires AreWellFormed(t)
    ensures AreWellFormed(Execute(t, op))
  {
    if Decide(t, op) == Accepted {
      if op.CreateUser? {
        AcceptedIsWellFormed(t, op);
        InsertKeepsUsers(t, op);
      } else {
        if op.UpdateRole? {
          RolesExactly(op.role);
        }
        PerformKeepsUsers(t, op);
      }
    }
  }
}
