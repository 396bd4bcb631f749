/**
 First-admin bootstrap and the user table (backend/modules/auth/routes.py): any number of concurrent
 /setup and /register transactions, interleaved with admin requests that first check who asks and then do
 what was asked. Every statement takes a fresh snapshot of the committed rows (Read Committed, section 13.2.1 of the
 PostgreSQL manual).
 */
module Bootstrap {
  import opened Prelude

  datatype Role = VgAdmin | CustomerAdmin

  datatype User = User(email: string, role: Role, customer: Option<nat>, isActive: bool)

  datatype Phase =
    | Waiting
    | Locked
    | Executed(row: Option<(nat, User)>)
    | Created(id: nat)
    | Conflict
    | Aborted

  /**
   Without the advisory lock, acquiring never waits. Admins holds the requests past their check, with their authors.
   */
  datatype State = State(
    advisory: bool, users: map<nat, User>, customers: set<nat>, lock: Option<nat>, attempts: map<nat, Phase>,
    admins: map<nat, nat>)

  datatype Step =
    | Begin(tx: nat)
    | Acquire(tx: nat)
    | Insert(tx: nat, id: nat, email: string)
    | Commit(tx: nat)
    | Abort(tx: nat)
    | Authorize(req: nat, actor: nat)
    | CreateUser(req: nat, id: nat, email: string, role: Role, customer: Option<nat>)
    | DeleteUser(req: nat, target: nat)
    | CreateCustomer(req: nat, customerId: nat)
    | DeleteCustomer(req: nat, customerId: nat)

  /** The VGAdmin dependency: an active vg_admin row of the committed table. */
  predicate Authorized(s: State, actor: nat) {
    actor in s.users && s.users[actor].isActive && s.users[actor].role == VgAdmin
  }

  /** UserCreate's model validator. */
  predicate ScopeConsistent(role: Role, customer: Option<nat>) {
    match role
    case VgAdmin => customer.None?
    case CustomerAdmin => customer.Some?
  }

  predicate EmailFree(users: map<nat, User>, email: string) {
    forall i :: i in users ==> users[i].email != email
  }

  predicate InPhase(s: State, tx: nat, holding: bool) {
    tx in s.attempts
      && (if holding then s.attempts[tx].Locked? || s.attempts[tx].Executed? else s.attempts[tx].Waiting?)
  }

  predicate Enabled(s: State, step: Step) {
    match step
    case Begin(tx) => tx !in s.attempts
    case Acquire(tx) => InPhase(s, tx, false) && (s.advisory ==> s.lock.None?)
    case Insert(tx, id, email) => tx in s.attempts && s.attempts[tx].Locked? && id !in s.users
    case Commit(tx) => tx in s.attempts && s.attempts[tx].Executed?
    case Abort(tx) => InPhase(s, tx, true) || InPhase(s, tx, false)
    case Authorize(req, actor) => Authorized(s, actor) && req !in s.admins
    case CreateUser(req, id, email, role, customer) =>
      // a new id is nobody's, not even that of a deleted author
      req in s.admins && id !in s.users && id !in s.admins.Values && ScopeConsistent(role, customer)
    case DeleteUser(req, target) => req in s.admins
    case CreateCustomer(req, c) => req in s.admins
    case DeleteCustomer(req, c) => req in s.admins
  }

  function Release(lock: Option<nat>, tx: nat): Option<nat> {
    if lock == Some(tx) then None else lock
  }

  function Apply(s: State, step: Step): State
    requires Enabled(s, step)
  {
    match step
    case Begin(tx) => s.(attempts := s.attempts[tx := Waiting])
    case Acquire(tx) => s.(attempts := s.attempts[tx := Locked], lock := Some(tx))
    case Insert(tx, id, email) =>
      // INSERT ... SELECT ... WHERE NOT EXISTS (SELECT id FROM users)
      var row := if s.users == map[] then Some((id, User(email, VgAdmin, None, true))) else None;
      s.(attempts := s.attempts[tx := Executed(row)])
    case Commit(tx) =>
      var row := s.attempts[tx].row;
      s.(lock := Release(s.lock, tx),
         users := if row.Some? then s.users[row.value.0 := row.value.1] else s.users,
         attempts := s.attempts[tx := if row.Some? then Created(row.value.0) else Conflict])
    case Abort(tx) => s.(lock := Release(s.lock, tx), attempts := s.attempts[tx := Aborted])
    case Authorize(req, actor) => s.(admins := s.admins[req := actor])
    case CreateUser(req, id, email, role, customer) =>
      // a taken email and an unknown customer both surface as 409
      var free := EmailFree(s.users, email) && (customer.Some? ==> customer.value in s.customers);
      s.(admins := s.admins - {req},
         users := if free then s.users[id := User(email, role, customer, true)] else s.users)
    case DeleteUser(req, target) =>
      s.(admins := s.admins - {req}, users := if s.admins[req] == target then s.users else s.users - {target})
    case CreateCustomer(req, c) => s.(admins := s.admins - {req}, customers := s.customers + {c})
    case DeleteCustomer(req, c) =>
      // users.customer_id is ON DELETE CASCADE
      s.(admins := s.admins - {req}, customers := s.customers - {c},
         users := map i | i in s.users && s.users[i].customer != Some(c) :: s.users[i])
  }

  predicate AdminRequest(step: Step) {
    step.CreateUser? || step.DeleteUser? || step.CreateCustomer? || step.DeleteCustomer?
  }

  ghost predicate ValidRun(s: State, steps: seq<Step>)
    decreases |steps|
  {
    steps == [] || (Enabled(s, steps[0]) && ValidRun(Apply(s, steps[0]), steps[1..]))
  }

  ghost function After(s: State, steps: seq<Step>): State
    requires ValidRun(s, steps)
    decreases |steps|
  {
    if steps == [] then s else After(Apply(s, steps[0]), steps[1..])
  }

  /** An empty instance; no request has arrived. */
  function Fresh(advisory: bool): State {
    State(advisory, map[], {}, None, map[], map[])
  }

  /** GET /signup-status */
  predicate SignupOpen(s: State) {
    s.users == map[]
  }

  predicate Succeeded(s: State, tx: nat) {
    tx in s.attempts && s.attempts[tx].Created?
  }

  predicate Finished(s: State, tx: nat) {
    tx in s.attempts && (s.attempts[tx].Created? || s.attempts[tx].Conflict?)
  }

  predicate HasAdmin(users: map<nat, User>) {
    exists i :: i in users && users[i].role == VgAdmin && users[i].isActive && users[i].customer.None?
  }

  predicate FirstAdmin(user: User) {
    user.role == VgAdmin && user.isActive && user.customer.None?
  }

  /**
   What holds in every run whatsoever: accounts have their shape, and the author of a request in flight is an
   active vg_admin for as long as the account exists.
   */
  ghost predicate Shape(s: State) {
    && (forall i :: i in s.users ==> s.users[i].isActive && ScopeConsistent(s.users[i].role, s.users[i].customer))
    && (forall tx :: tx in s.attempts && s.attempts[tx].Executed? && s.attempts[tx].row.Some? ==>
          FirstAdmin(s.attempts[tx].row.value.1))
    && (forall req :: req in s.admins && s.admins[req] in s.users ==> Authorized(s, s.admins[req]))
  }

  /**
   The interleaving at fault: a deletion whose author has been deleted since the check hits the only vg_admin left.
   */
  predicate DeletesLastAdmin(s: State, step: Step)
    requires Enabled(s, step)
  {
    && step.DeleteUser? && step.target in s.users && s.users[step.target].role == VgAdmin
    && s.admins[step.req] !in s.users
    && forall i :: i in s.users && s.users[i].role == VgAdmin ==> i == step.target
  }

  ghost predicate NeverDeletesLastAdmin(s: State, steps: seq<Step>)
    requires ValidRun(s, steps)
    decreases |steps|
  {
    steps == [] || (!DeletesLastAdmin(s, steps[0]) && NeverDeletesLastAdmin(Apply(s, steps[0]), steps[1..]))
  }

  ghost predicate LockInv(s: State) {
    && s.advisory
    && (forall tx: nat :: InPhase(s, tx, true) ==> s.lock == Some(tx))
    && (s.lock.Some? ==> InPhase(s, s.lock.value, true))
  }

  ghost predicate UserInv(s: State) {
    && Shape(s)
    && (forall i, j :: i in s.users && j in s.users && i != j ==> s.users[i].email != s.users[j].email)
    && (s.users != map[] ==> HasAdmin(s.users))
    && (s.users == map[] ==> s.admins == map[])
  }

  ghost predicate BootInv(s: State) {
    && (forall tx :: tx in s.attempts && s.attempts[tx].Executed? ==>
          (s.attempts[tx].row.Some? <==> s.users == map[]))
    && (forall tx, ty :: Succeeded(s, tx) && Succeeded(s, ty) ==> tx == ty)
    && (forall tx :: Finished(s, tx) ==> s.users != map[])
  }

  ghost predicate Inv(s: State) {
    LockInv(s) && UserInv(s) && BootInv(s)
  }

  lemma LockStep(s: State, step: Step)
    requires LockInv(s) && Enabled(s, step)
    ensures LockInv(Apply(s, step))
  {
  }

  lemma ShapeStep(s: State, step: Step)
    requires Shape(s) && Enabled(s, step)
    ensures Shape(Apply(s, step))
  {
    if step.CreateUser? {
      forall req | req in s.admins && req != step.req ensures s.admins[req] != step.id {
        assert s.admins[req] in s.admins.Values;
      }
    }
  }

  /** A step leaves no admin exactly when it is a deletion by an author already gone that hits the last one. */
  lemma LastAdminLostIff(s: State, step: Step)
    requires Shape(s) && Enabled(s, step) && HasAdmin(s.users)
    ensures !HasAdmin(Apply(s, step).users) <==> DeletesLastAdmin(s, step)
  {
    var s' := Apply(s, step);
    var admin :| admin in s.users && s.users[admin].role == VgAdmin && s.users[admin].isActive
                 && s.users[admin].customer.None?;
    if step.Commit? {
      var row := s.attempts[step.tx].row;
      assert s'.users[if row.Some? && row.value.0 == admin then row.value.0 else admin].role == VgAdmin;
    } else if !step.DeleteUser? {
      assert admin in s'.users && s'.users[admin] == s.users[admin];
    } else if !DeletesLastAdmin(s, step) {
      var other := if step.target != admin then admin
                   else if s.admins[step.req] in s.users then s.admins[step.req]
                   else var i :| i in s.users && s.users[i].role == VgAdmin && i != step.target; i;
      assert other in s'.users && s'.users[other] == s.users[other]
        && ScopeConsistent(VgAdmin, s.users[other].customer);
    }
  }

  /** An admin request whose author is still there keeps the author, so it cannot delete the last admin. */
  lemma AdminStep(s: State, step: Step)
    requires Shape(s) && Enabled(s, step) && AdminRequest(step) && s.admins[step.req] in s.users
    ensures Authorized(Apply(s, step), s.admins[step.req]) && HasAdmin(Apply(s, step).users)
    ensures Shape(Apply(s, step)) && !DeletesLastAdmin(s, step)
  {
    var actor := s.admins[step.req];
    assert Authorized(s, actor) && s.users[actor].customer.None?;
    assert Apply(s, step).users[actor].role == VgAdmin;
    ShapeStep(s, step);
  }

  lemma UserStep(s: State, step: Step)
    requires Inv(s) && Enabled(s, step) && !DeletesLastAdmin(s, step)
    ensures UserInv(Apply(s, step))
    ensures s.users != map[] ==> Apply(s, step).users != map[]
  {
    hide Shape;
    ShapeStep(s, step);
    if s.users != map[] {
      LastAdminLostIff(s, step);
    }
    if step.Commit? && s.attempts[step.tx].row.Some? {
      FirstAdminCounts(s, step.tx);
    }
  }

  lemma FirstAdminCounts(s: State, tx: nat)
    requires Shape(s) && Enabled(s, Commit(tx)) && s.attempts[tx].row.Some?
    ensures HasAdmin(Apply(s, Commit(tx)).users)
  {
    assert Apply(s, Commit(tx)).users[s.attempts[tx].row.value.0].role == VgAdmin;
  }

  lemma BootStep(s: State, step: Step)
    requires Inv(s) && Enabled(s, step) && !DeletesLastAdmin(s, step)
    ensures BootInv(Apply(s, step))
    ensures s.users != map[] ==> forall tx :: Succeeded(Apply(s, step), tx) <==> Succeeded(s, tx)
  {
    UserStep(s, step);
    var s' := Apply(s, step);
    if step.Commit? {
      var tx := step.tx;
      forall ty | ty in s'.attempts && s'.attempts[ty].Executed? ensures false {
        assert InPhase(s, ty, true) && InPhase(s, tx, true);
      }
      if s.attempts[tx].row.Some? {
        assert s.attempts[tx].row.value.0 in s'.users;
        assert forall ty :: !Finished(s, ty);
        assert forall ty :: Succeeded(s', ty) ==> ty == tx || Finished(s, ty);
      } else {
        assert forall ty :: Succeeded(s', ty) <==> Succeeded(s, ty);
      }
      assert s'.users != map[];
      assert BootInv(s');
    } else {
      if AdminRequest(step) {
        assert s'.attempts == s.attempts;
      } else {
        assert s'.users == s.users;
      }
      assert s'.users == map[] <==> s.users == map[];
      forall ty ensures Succeeded(s', ty) <==> Succeeded(s, ty) {}
      forall ty | Finished(s', ty) ensures Finished(s, ty) {}
      assert forall ty :: ty in s'.attempts && s'.attempts[ty].Executed? ==>
        (ty in s.attempts && s.attempts[ty] == s'.attempts[ty]) || (step.Insert? && step.tx == ty);
      assert BootInv(s');
    }
  }

  lemma {:induction false} RunKeepsInv(s: State, steps: seq<Step>)
    requires Inv(s) && ValidRun(s, steps) && NeverDeletesLastAdmin(s, steps)
    ensures Inv(After(s, steps))
    ensures s.users != map[] ==> After(s, steps).users != map[]
    ensures s.users != map[] ==> forall tx :: Succeeded(After(s, steps), tx) <==> Succeeded(s, tx)
    decreases |steps|
  {
    hide Inv, Enabled, Apply, Succeeded, DeletesLastAdmin;
    if steps != [] {
      InvStep(s, steps[0]);
      RunKeepsInv(Apply(s, steps[0]), steps[1..]);
    }
  }

  lemma InvStep(s: State, step: Step)
    requires Inv(s) && Enabled(s, step) && !DeletesLastAdmin(s, step)
    ensures Inv(Apply(s, step))
    ensures s.users != map[] ==> Apply(s, step).users != map[]
    ensures s.users != map[] ==> forall tx :: Succeeded(Apply(s, step), tx) <==> Succeeded(s, tx)
  {
    hide LockInv, UserInv, BootInv, Enabled, Apply, Succeeded, DeletesLastAdmin;
    LockStep(s, step);
    UserStep(s, step);
    BootStep(s, step);
  }

  // ---------------------------------------------------------------- from an empty instance

  lemma FreshInv()
    ensures Inv(Fresh(true))
  {
  }

  /** At most one attempt succeeds, and exactly one has once any completed, unless the last admin is deleted. */
  lemma OneUnlessAdminsVanish(steps: seq<Step>)
    requires ValidRun(Fresh(true), steps) && NeverDeletesLastAdmin(Fresh(true), steps)
    ensures var s := After(Fresh(true), steps);
            && (forall tx, ty :: Succeeded(s, tx) && Succeeded(s, ty) ==> tx == ty)
            && ((exists tx :: Finished(s, tx)) ==> !SignupOpen(s) && exists tx :: Succeeded(s, tx))
  {
    hide Apply, Enabled, UserInv;
    FreshInv();
    RunKeepsInv(Fresh(true), steps);
    UsersComeFromBootstrap(steps);
  }

  lemma {:induction false} UsersComeFromBootstrapFrom(s: State, steps: seq<Step>)
    requires Inv(s) && ValidRun(s, steps) && NeverDeletesLastAdmin(s, steps)
    requires s.users != map[] ==> exists tx :: Succeeded(s, tx)
    ensures var t := After(s, steps);
            t.users != map[] ==> exists tx :: Succeeded(t, tx)
    decreases |steps|
  {
    hide Inv, Enabled, Apply, DeletesLastAdmin;
    if steps != [] {
      InvStep(s, steps[0]);
      assert UserInv(s) by { InvHasUsers(s); }
      FirstUser(s, steps[0]);
      StillSucceeded(s, steps[0]);
      UsersComeFromBootstrapFrom(Apply(s, steps[0]), steps[1..]);
    }
  }

  lemma InvHasUsers(s: State)
    requires Inv(s)
    ensures UserInv(s)
  {
  }

  lemma StillSucceeded(s: State, step: Step)
    requires Enabled(s, step)
    ensures forall tx :: Succeeded(s, tx) ==> Succeeded(Apply(s, step), tx)
  {
  }

  lemma FirstUser(s: State, step: Step)
    requires UserInv(s) && Enabled(s, step)
    ensures s.users == map[] && Apply(s, step).users != map[] ==> exists tx :: Succeeded(Apply(s, step), tx)
  {
    if step.Commit? && s.attempts[step.tx].row.Some? {
      assert Succeeded(Apply(s, step), step.tx);
    }
  }

  lemma UsersComeFromBootstrap(steps: seq<Step>)
    requires ValidRun(Fresh(true), steps) && NeverDeletesLastAdmin(Fresh(true), steps)
    ensures var s := After(Fresh(true), steps);
            s.users != map[] ==> exists tx :: Succeeded(s, tx)
  {
    FreshInv();
    UsersComeFromBootstrapFrom(Fresh(true), steps);
  }

  /** Once there is a user there is an active vg_admin from then on, unless the last admin is deleted. */
  lemma ClosedUnlessAdminsVanish(steps: seq<Step>, more: seq<Step>)
    requires ValidRun(Fresh(true), steps) && NeverDeletesLastAdmin(Fresh(true), steps)
    requires !SignupOpen(After(Fresh(true), steps)) && ValidRun(After(Fresh(true), steps), more)
    requires NeverDeletesLastAdmin(After(Fresh(true), steps), more)
    ensures var s, t := After(Fresh(true), steps), After(After(Fresh(true), steps), more);
            && HasAdmin(t.users) && !SignupOpen(t)
            && forall tx :: Succeeded(t, tx) <==> Succeeded(s, tx)
  {
    hide Apply, Enabled, BootInv, LockInv;
    FreshInv();
    RunKeepsInv(Fresh(true), steps);
    RunKeepsInv(After(Fresh(true), steps), more);
  }

  // ---------------------------------------------------------------- what requests do when nothing interferes

  /** One attempt from its arrival to its commit: on an empty table it creates the vg_admin it names, else nothing. */
  lemma SoloAttempt(s: State, tx: nat, id: nat, email: string)
    requires tx !in s.attempts && s.lock.None? && id !in s.users
    ensures var run := [Begin(tx), Acquire(tx)] + [Insert(tx, id, email), Commit(tx)];
            ValidRun(s, run) &&
            var t := After(s, run);
            && t.users == (if s.users == map[] then map[id := User(email, VgAdmin, None, true)] else s.users)
            && (Succeeded(t, tx) <==> s.users == map[]) && Finished(t, tx)
            && t.lock.None? && t.customers == s.customers && t.admins == s.admins
            && forall other :: other != tx ==> (other in t.attempts <==> other in s.attempts)
                                               && (other in s.attempts ==> t.attempts[other] == s.attempts[other])
  {
    hide ValidRun, After;
    var s2 := Apply(Apply(s, Begin(tx)), Acquire(tx));
    var s4 := Apply(Apply(s2, Insert(tx, id, email)), Commit(tx));
    Nothing(s4);
    var run2 := TwoMore(s2, Insert(tx, id, email), Commit(tx), []);
    var run := TwoMore(s, Begin(tx), Acquire(tx), run2);
    assert run == [Begin(tx), Acquire(tx)] + [Insert(tx, id, email), Commit(tx)];
  }

  /**
   What an admin request changes: it creates the one account it names if the email is free and the customer is known,
   deletes the one it names unless it is its author's, adds a customer, or deletes one with exactly its accounts.
   */
  lemma RequestEffect(s: State, step: Step, i: nat)
    requires Enabled(s, step) && AdminRequest(step)
    ensures step.CreateUser? ==>
              var taken := exists j :: j in s.users && s.users[j].email == step.email;
              var unknown := step.customer.Some? && step.customer.value !in s.customers;
              UserAt(Apply(s, step), i)
              == if i == step.id && !taken && !unknown then Some(User(step.email, step.role, step.customer, true))
                 else UserAt(s, i)
    ensures step.DeleteUser? ==>
              UserAt(Apply(s, step), i) == if i == step.target != s.admins[step.req] then None else UserAt(s, i)
    ensures step.CreateCustomer? ==> UserAt(Apply(s, step), i) == UserAt(s, i)
    ensures step.DeleteCustomer? ==>
              UserAt(Apply(s, step), i)
              == if i in s.users && s.users[i].customer == Some(step.customerId) then None else UserAt(s, i)
    ensures Apply(s, step).customers
         == if step.CreateCustomer? then s.customers + {step.customerId}
            else if step.DeleteCustomer? then s.customers - {step.customerId}
            else s.customers
  {
  }

  function UserAt(s: State, i: nat): Option<User> {
    if i in s.users then Some(s.users[i]) else None
  }

  // ---------------------------------------------------------------- requests that are not overtaken

  /** Whenever an admin request does what was asked, its author is still a user. */
  ghost predicate AuthorsStay(s: State, steps: seq<Step>)
    requires ValidRun(s, steps)
    decreases |steps|
  {
    || steps == []
    || (&& (AdminRequest(steps[0]) ==> s.admins[steps[0].req] in s.users)
        && AuthorsStay(Apply(s, steps[0]), steps[1..]))
  }

  /** Then no request deletes the last admin, in any run. */
  lemma {:induction false} AuthorsKeepAdmins(s: State, steps: seq<Step>)
    requires Shape(s) && ValidRun(s, steps) && AuthorsStay(s, steps)
    ensures NeverDeletesLastAdmin(s, steps)
    decreases |steps|
  {
    hide Shape, Apply, Enabled;
    if steps != [] {
      ShapeStep(s, steps[0]);
      AuthorsKeepAdmins(Apply(s, steps[0]), steps[1..]);
    }
  }

  /** Every admin request does what was asked directly after its own check. */
  predicate Atomic(steps: seq<Step>) {
    forall i :: 0 <= i < |steps| && AdminRequest(steps[i]) ==>
      i > 0 && steps[i - 1].Authorize? && steps[i - 1].req == steps[i].req
  }

  /** The same for the rest of a run: the first step may be a request whose check was the step before. */
  predicate AtomicFrom(s: State, steps: seq<Step>) {
    && (steps != [] && AdminRequest(steps[0]) && steps[0].req in s.admins ==> s.admins[steps[0].req] in s.users)
    && forall i :: 1 <= i < |steps| && AdminRequest(steps[i]) ==>
         steps[i - 1].Authorize? && steps[i - 1].req == steps[i].req
  }

  lemma AtomicStep(s: State, steps: seq<Step>)
    requires steps != [] && Enabled(s, steps[0]) && AtomicFrom(s, steps)
    ensures AtomicFrom(Apply(s, steps[0]), steps[1..])
  {
    assert forall i :: 1 <= i < |steps| ==> steps[1..][i - 1] == steps[i];
  }

  /** Atomic requests are not overtaken, however a run is cut in two; a run without admin requests is atomic. */
  lemma {:induction false} AtomicAuthorsStay(s: State, steps: seq<Step>, more: seq<Step>)
    requires ValidRun(s, steps) && ValidRun(After(s, steps), more) && AtomicFrom(s, steps + more)
    ensures AuthorsStay(s, steps) && AuthorsStay(After(s, steps), more)
    decreases |steps| + |more|
  {
    hide Enabled, Apply, AtomicFrom;
    if steps != [] {
      var rest := (steps + more)[1..];
      assert rest == steps[1..] + more;
      FirstAuthor(s, steps + more);
      AtomicStep(s, steps + more);
      AtomicAuthorsStay(Apply(s, steps[0]), steps[1..], more);
    } else if more != [] {
      assert steps + more == more;
      FirstAuthor(s, more);
      AtomicStep(s, more);
      assert more[1..] + [] == more[1..];
      AtomicAuthorsStay(Apply(s, more[0]), more[1..], []);
    }
  }

  lemma FirstAuthor(s: State, steps: seq<Step>)
    requires steps != [] && Enabled(s, steps[0]) && AtomicFrom(s, steps)
    ensures AdminRequest(steps[0]) ==> s.admins[steps[0].req] in s.users
  {
  }

  lemma AtomicRun(steps: seq<Step>, more: seq<Step>)
    requires ValidRun(Fresh(true), steps) && ValidRun(After(Fresh(true), steps), more) && Atomic(steps + more)
    ensures NeverDeletesLastAdmin(Fresh(true), steps) && NeverDeletesLastAdmin(After(Fresh(true), steps), more)
  {
    hide Enabled, Apply, Shape, BootInv, LockInv;
    FreshInv();
    AtomicAuthorsStay(Fresh(true), steps, more);
    AuthorsKeepAdmins(Fresh(true), steps);
    RunKeepsInv(Fresh(true), steps);
    AuthorsKeepAdmins(After(Fresh(true), steps), more);
  }

  /**
   In every interleaving of bootstrap attempts and atomic admin requests, from an empty instance, at most one attempt
   ever succeeds; as soon as any attempt has completed exactly one has, and the table is not empty.
   */
  lemma ExactlyOneSucceeds(steps: seq<Step>)
    requires ValidRun(Fresh(true), steps) && Atomic(steps)
    ensures var s := After(Fresh(true), steps);
            && (forall tx, ty :: Succeeded(s, tx) && Succeeded(s, ty) ==> tx == ty)
            && ((exists tx :: Finished(s, tx)) ==> !SignupOpen(s) && exists tx :: Succeeded(s, tx))
  {
    hide Enabled, Apply;
    assert steps + [] == steps;
    AtomicRun(steps, []);
    OneUnlessAdminsVanish(steps);
  }

  /**
   With atomic admin requests, once there is a user there is an active vg_admin in every later state, whatever the
   admins do, so registration stays closed and every attempt that completes from then on is refused.
   */
  lemma ClosedForever(steps: seq<Step>, more: seq<Step>)
    requires ValidRun(Fresh(true), steps) && ValidRun(After(Fresh(true), steps), more) && Atomic(steps + more)
    requires !SignupOpen(After(Fresh(true), steps))
    ensures var s, t := After(Fresh(true), steps), After(After(Fresh(true), steps), more);
            && HasAdmin(t.users) && !SignupOpen(t)
            && forall tx :: Succeeded(t, tx) <==> Succeeded(s, tx)
  {
    hide Enabled, Apply;
    AtomicRun(steps, more);
    ClosedUnlessAdminsVanish(steps, more);
  }

  // ---------------------------------------------------------------- when the last admin can go

  ghost predicate KeepsAdmin(s: State, steps: seq<Step>)
    requires ValidRun(s, steps)
    decreases |steps|
  {
    HasAdmin(s.users) && (steps == [] || KeepsAdmin(Apply(s, steps[0]), steps[1..]))
  }

  /**
   The exact condition, for every run: there is an admin at every moment if and only if no request whose author has
   been deleted since its check goes on to delete the last admin.
   */
  lemma {:induction false} AdminStaysIff(s: State, steps: seq<Step>)
    requires Shape(s) && HasAdmin(s.users) && ValidRun(s, steps)
    ensures KeepsAdmin(s, steps) <==> NeverDeletesLastAdmin(s, steps)
    decreases |steps|
  {
    hide Shape, HasAdmin, Enabled, Apply, DeletesLastAdmin;
    if steps != [] {
      ShapeStep(s, steps[0]);
      LastAdminLostIff(s, steps[0]);
      if HasAdmin(Apply(s, steps[0]).users) {
        AdminStaysIff(Apply(s, steps[0]), steps[1..]);
      } else {
        NoAdminNow(Apply(s, steps[0]), steps[1..]);
      }
    }
  }

  lemma NoAdminNow(s: State, steps: seq<Step>)
    requires !HasAdmin(s.users) && ValidRun(s, steps)
    ensures !KeepsAdmin(s, steps)
  {
    hide HasAdmin;
  }

  /**
   So two vg_admins, the only users, who delete each other at the same time leave nobody, and registration is open.
   */
  lemma CrossDeletion(s: State, a: nat, b: nat, reqA: nat, reqB: nat)
    requires a != b && s.users.Keys == {a, b} && Authorized(s, a) && Authorized(s, b)
    requires reqA != reqB && reqA !in s.admins && reqB !in s.admins
    ensures var run := [Authorize(reqA, a), Authorize(reqB, b)] + [DeleteUser(reqA, b), DeleteUser(reqB, a)];
            ValidRun(s, run) && SignupOpen(After(s, run))
  {
    hide ValidRun, After;
    var s2 := s.(admins := s.admins[reqA := a][reqB := b]);
    var s4 := Apply(Apply(s2, DeleteUser(reqA, b)), DeleteUser(reqB, a));
    assert s4.users.Keys == {};
    Nothing(s4);
    var run2 := TwoMore(s2, DeleteUser(reqA, b), DeleteUser(reqB, a), []);
    var run := TwoMore(s, Authorize(reqA, a), Authorize(reqB, b), run2);
    assert run == [Authorize(reqA, a), Authorize(reqB, b)] + [DeleteUser(reqA, b), DeleteUser(reqB, a)];
  }

  /** Without the lock the WHERE NOT EXISTS guard alone lets two concurrent attempts both succeed. */
  lemma LockIsNeeded()
    ensures exists steps :: ValidRun(Fresh(false), steps) &&
              var s := After(Fresh(false), steps);
              exists tx, ty :: tx != ty && Succeeded(s, tx) && Succeeded(s, ty)
  {
    hide ValidRun, After;
    var a, b := User("a", VgAdmin, None, true), User("b", VgAdmin, None, true);
    var s0 := Fresh(false);
    var s2 := s0.(attempts := map[1 := Waiting][2 := Waiting]);
    var s4 := s2.(attempts := s2.attempts[1 := Locked][2 := Locked], lock := Some(2));
    var s6 := s4.(attempts := s4.attempts[1 := Executed(Some((1, a)))][2 := Executed(Some((2, b)))]);
    Nothing(Apply(Apply(s6, Commit(1)), Commit(2)));
    var run6 := TwoMore(s6, Commit(1), Commit(2), []);
    var run4 := TwoMore(s4, Insert(1, 1, "a"), Insert(2, 2, "b"), run6);
    var run2 := TwoMore(s2, Acquire(1), Acquire(2), run4);
    var run0 := TwoMore(s0, Begin(1), Begin(2), run2);
    assert Succeeded(After(s0, run0), 1) && Succeeded(After(s0, run0), 2);
  }

  lemma Nothing(s: State)
    ensures ValidRun(s, []) && After(s, []) == s
  {
  }

  lemma TwoMore(s: State, first: Step, second: Step, rest: seq<Step>) returns (run: seq<Step>)
    requires Enabled(s, first) && Enabled(Apply(s, first), second) && ValidRun(Apply(Apply(s, first), second), rest)
    ensures ValidRun(s, run) && After(s, run) == After(Apply(Apply(s, first), second), rest)
    ensures run == [first, second] + rest
  {
    hide Enabled, Apply;
    RunOne(Apply(s, first), second, rest);
    RunOne(s, first, [second] + rest);
    run := [first] + ([second] + rest);
  }

  lemma RunOne(s: State, step: Step, rest: seq<Step>)
    requires Enabled(s, step) && ValidRun(Apply(s, step), rest)
    ensures ValidRun(s, [step] + rest) && After(s, [step] + rest) == After(Apply(s, step), rest)
  {
    assert ([step] + rest)[1..] == rest;
  }
}
