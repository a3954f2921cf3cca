/** The SCIM user directory of one tenant: application rows, role assignments and identity-provider
    accounts, changed request by request. */
module Scim {
  import opened Basics
  import opened Text

  /** A row of identity.user. */
  datatype User = User(
    sub: string,
    email: string,
    displayName: string,
    externalId: string,
    customer: Option<string>,
    disabled: bool,
    standIn: bool)

  /** An identity-provider account. */
  datatype Account = Account(email: string, name: string, enabled: bool, realmRoles: set<string>)

  datatype Assignment = Assignment(user: nat, role: string, workspace: string)

  datatype State = State(users: map<nat, User>, roles: set<Assignment>, idp: map<string, Account>)

  /** How the service is set up; fixed for a run. */
  datatype Config = Config(
    tenant: string,
    workspace: string,
    workspaces: set<string>,
    defaultRole: string,
    hasIdp: bool,
    heldElsewhere: Option<(string, string) -> bool>,
    platformReach: Option<string -> bool>,
    ownDatabase: bool,
    canRemove: bool)

  datatype UserInput = UserInput(email: string, displayName: string, externalId: string, active: bool)

  /** What the outside world answers during one request: generated keys, lookups, and which of the
      calls fail. A failing e-mail or subject lookup is taken for "nobody has it". */
  datatype World = World(
    newId: nat,
    newSub: string,
    found: string,
    refused: bool,
    emailLookupFails: bool,
    subLookupFails: bool,
    lookupFails: bool,
    memberFails: bool,
    findFails: bool,
    createFails: bool,
    realmRoleFails: bool,
    abortFails: bool,
    writeFails: bool,
    roleFails: bool,
    enableFails: bool,
    profileFails: bool,
    deleteFails: bool,
    heldAgainFails: bool,
    removableFails: bool,
    removeFails: bool,
    removed: bool,
    reloadFails: bool)

  datatype Status = Done | BadRequest | Conflict | Forbidden | NotFound | Failed

  const PLATFORM_ADMIN := "platform_admin"
  const SYNTHETIC := "scim-created-"
  const ADMIN_CREATED := "admin-created-"
  const RESERVED := "@stand-in.invalid"

  // ---- who may be changed ----

  predicate HasPlatformAdmin(roles: set<Assignment>, u: nat) {
    exists a :: a in roles && a.user == u && a.role == PLATFORM_ADMIN
  }

  predicate NotPlatformAccount(cfg: Config, user: User) {
    cfg.platformReach.Some? ==> !cfg.platformReach.value(user.sub)
  }

  predicate Held(cfg: Config, email: string, sub: string) {
    cfg.heldElsewhere.Some? && cfg.heldElsewhere.value(email, sub)
  }

  /** The user is the tenant's own, and so is its account to change. */
  predicate Owns(cfg: Config, s: State, u: nat) {
    && u in s.users && s.users[u].customer == Some(cfg.tenant)
    && !HasPlatformAdmin(s.roles, u) && NotPlatformAccount(cfg, s.users[u])
  }

  /** The account is another database's, and only the row and its roles are here. */
  predicate MemberHere(cfg: Config, s: State, u: nat) {
    && u in s.users && cfg.heldElsewhere.Some? && cfg.ownDatabase && NotPlatformAccount(cfg, s.users[u])
    && s.users[u].customer.None? && !s.users[u].standIn && !HasPlatformAdmin(s.roles, u)
    && Held(cfg, "", s.users[u].sub)
  }

  predicate Removable(cfg: Config, s: State, u: nat) {
    u in s.users && !HasPlatformAdmin(s.roles, u) && NotPlatformAccount(cfg, s.users[u])
  }

  /** The users the directory lists: the tenant's own and whoever holds a role in its workspaces. */
  predicate InScope(cfg: Config, s: State, u: nat) {
    u in s.users &&
    (s.users[u].customer == Some(cfg.tenant) || exists a :: a in s.roles && a.user == u && a.workspace in cfg.workspaces)
  }

  predicate Reserved(email: string) {
    |email| >= |RESERVED| && email[|email| - |RESERVED|..] == RESERVED
  }

  predicate ValidEmail(email: string) {
    '@' in email && !Reserved(email)
  }

  /** What the table demands of a row: no other row has its subject or its address, letter for letter,
      and the reserved addresses are those of stand-ins. */
  predicate RowAllowed(s: State, u: nat, row: User) {
    && (forall o :: o in s.users && o != u ==> s.users[o].sub != row.sub && s.users[o].email != row.email)
    && (row.standIn <==> Reserved(Lower(row.email)))
  }

  predicate EmailTaken(s: State, email: string) {
    exists u :: u in s.users && Lower(s.users[u].email) == email
  }

  predicate EmailTakenByOther(s: State, email: string, u: nat) {
    exists o :: o in s.users && o != u && Lower(s.users[o].email) == email
  }

  predicate SubTaken(s: State, sub: string) {
    exists u :: u in s.users && s.users[u].sub == sub
  }

  predicate Synthetic(sub: string) {
    SYNTHETIC <= sub || ADMIN_CREATED <= sub
  }

  // ---- requests, as functions of the state ----

  function WithoutAccount(s: State, sub: string): State {
    s.(idp := map k | k in s.idp && k != sub :: s.idp[k])
  }

  function SetEnabled(s: State, sub: string, enabled: bool): State {
    if sub in s.idp then s.(idp := s.idp[sub := s.idp[sub].(enabled := enabled)]) else s
  }

  function SetProfile(s: State, sub: string, email: string, name: string): State {
    if sub in s.idp then s.(idp := s.idp[sub := s.idp[sub].(email := email, name := name)]) else s
  }

  function GrantRealmRole(s: State, sub: string, role: string): State {
    if sub in s.idp then s.(idp := s.idp[sub := s.idp[sub].(realmRoles := s.idp[sub].realmRoles + {role})]) else s
  }

  /** Undo the account a failed creation made. */
  function Abort(s: State, w: World, created: bool, sub: string): State {
    if created && !w.abortFails then WithoutAccount(s, sub) else s
  }

  /** The checks every creation passes first. */
  function CreateRefusal(cfg: Config, s: State, input: UserInput, w: World): Option<Status> {
    if !ValidEmail(input.email) then Some(BadRequest)
    else if !w.emailLookupFails && EmailTaken(s, input.email) then Some(Conflict)
    else if cfg.heldElsewhere.Some? && w.lookupFails then Some(Failed)
    else if Held(cfg, input.email, "") then Some(Conflict)
    else if w.refused then Some(Forbidden)
    else None
  }

  /** The identity-provider half: adopt the account found, or make one. Either a refusal and the state
      it leaves, or the subject to store and whether its account is new. */
  datatype Prepared = Refused(state: State, status: Status) | Ready(state: State, sub: string, created: bool)

  function Prepare(cfg: Config, s: State, input: UserInput, w: World): Prepared {
    if !cfg.hasIdp then Ready(s, SYNTHETIC + input.email, false)
    else if w.findFails then Refused(s, Failed)
    else if w.found != "" && !w.subLookupFails && SubTaken(s, w.found) then Refused(s, Conflict)
    else if w.found != "" && cfg.heldElsewhere.Some? && w.heldAgainFails then Refused(s, Failed)
    else if w.found != "" && Held(cfg, input.email, w.found) then Refused(s, Conflict)
    else if w.found == "" && w.createFails then Refused(s, Failed)
    else
      var created := w.found == "";
      var sub := if created then w.newSub else w.found;
      var s1 := if created then s.(idp := s.idp[sub := Account(input.email, input.displayName, true, {})]) else s;
      if w.realmRoleFails then Refused(Abort(s1, w, created, sub), Failed)
      else Ready(GrantRealmRole(s1, sub, cfg.defaultRole), sub, created)
  }

  /** The row a creation writes: a new one, or the one that already has the subject. */
  function UpsertId(s: State, w: World, sub: string): (u: nat)
    ensures SubTaken(s, sub) ==> u in s.users && s.users[u].sub == sub
    ensures forall v :: v in s.users && s.users[v].sub == sub ==> u <= v
    ensures !SubTaken(s, sub) ==> u == w.newId
  {
    if SubTaken(s, sub) then LowestWithSub(s, sub, s.users.Keys) else w.newId
  }

  /** The least of the users with the subject. */
  function LowestWithSub(s: State, sub: string, among: set<nat>): (u: nat)
    requires among <= s.users.Keys && exists u :: u in among && s.users[u].sub == sub
    ensures u in among && s.users[u].sub == sub && forall v :: v in among && s.users[v].sub == sub ==> u <= v
  {
    var candidates := set u | u in among && s.users[u].sub == sub;
    assert exists u :: u in candidates && forall v :: v in candidates ==> u <= v by {
      var one :| one in among && s.users[one].sub == sub;
      assert one in candidates;
      var u := LeastOf(candidates);
    }
    var u :| u in candidates && forall v :: v in candidates ==> u <= v;
    assert forall v :: v in among && s.users[v].sub == sub ==> v in candidates;
    u
  }

  lemma {:induction false} LeastOf(candidates: set<nat>) returns (u: nat)
    requires candidates != {}
    ensures u in candidates && forall v :: v in candidates ==> u <= v
  {
    u :| u in candidates;
    var first := u;
    var rest := candidates - {first};
    assert candidates == rest + {first};
    if rest != {} {
      var least := LeastOf(rest);
      if least < first { u := least; }
    }
  }

  /** What it writes there. */
  function UpsertRow(cfg: Config, s: State, input: UserInput, w: World, sub: string): User {
    if SubTaken(s, sub) then
      var row := s.users[UpsertId(s, w, sub)];
      row.(email := input.email, displayName := input.displayName, externalId := input.externalId,
           disabled := !input.active,
           customer := if row.customer.Some? then row.customer else Some(cfg.tenant))
    else User(sub, input.email, input.displayName, input.externalId, Some(cfg.tenant), !input.active, false)
  }

  predicate Writes(cfg: Config, s: State, input: UserInput, w: World, sub: string) {
    !w.writeFails && RowAllowed(s, UpsertId(s, w, sub), UpsertRow(cfg, s, input, w, sub))
  }

  function Upsert(cfg: Config, s: State, input: UserInput, w: World, sub: string): State {
    s.(users := s.users[UpsertId(s, w, sub) := UpsertRow(cfg, s, input, w, sub)])
  }

  function Named(input: UserInput): UserInput {
    if input.displayName == "" then input.(displayName := input.email) else input
  }

  /** The answer is the row, read back. */
  function Reloaded(w: World): Status {
    if w.reloadFails then Failed else Done
  }

  /** The application half: the row, the default role, and the account disabled for an inactive
      user. */
  function Finish(cfg: Config, s: State, input: UserInput, w: World, sub: string, created: bool): (State, Status) {
    if !Writes(cfg, s, input, w, sub) then (Abort(s, w, created, sub), Failed)
    else
      var s1 := Upsert(cfg, s, input, w, sub);
      if w.roleFails then (s1, Failed)
      else
        var s2 := s1.(roles := s1.roles + {Assignment(UpsertId(s, w, sub), cfg.defaultRole, cfg.workspace)});
        (if cfg.hasIdp && !input.active && !w.enableFails then SetEnabled(s2, sub, false) else s2, Reloaded(w))
  }

  function Create(cfg: Config, s: State, input0: UserInput, w: World): (State, Status) {
    var input := input0.(email := Key(input0.email));
    var refusal := CreateRefusal(cfg, s, input, w);
    if refusal.Some? then (s, refusal.value)
    else
      match Prepare(cfg, s, Named(input), w)
      case Refused(s1, status) => (s1, status)
      case Ready(s1, sub, created) => Finish(cfg, s1, Named(input), w, sub, created)
  }

  /** A request that asks for what is already there. */
  predicate ChangesNothing(user: User, input: UserInput) {
    && input.email == Lower(user.email) && input.displayName == user.displayName
    && input.externalId == user.externalId && input.active == !user.disabled
  }

  function UpdateInput(user: User, input: UserInput): UserInput {
    input.(email := Key(input.email), displayName := if input.displayName == "" then user.displayName else input.displayName)
  }

  function Update(cfg: Config, s: State, u: nat, input0: UserInput, w: World): (State, Status) {
    if !InScope(cfg, s, u) then (s, NotFound)
    else
      var input := UpdateInput(s.users[u], input0);
      if !ValidEmail(input.email) then (s, BadRequest)
      else if w.lookupFails then (s, Failed)
      else if Owns(cfg, s, u) then UpdateOwned(cfg, s, u, input, w)
      else UpdateUnowned(cfg, s, u, input, w)
  }

  function UpdateUnowned(cfg: Config, s: State, u: nat, input: UserInput, w: World): (State, Status)
    requires u in s.users
  {
    var user := s.users[u];
    if ChangesNothing(user, input) then (s, Done)
    else if input.email != Lower(user.email) || input.displayName != user.displayName then (s, Forbidden)
    else if cfg.heldElsewhere.Some? && cfg.ownDatabase && w.memberFails then (s, Failed)
    else if MemberHere(cfg, s, u) then
      if w.writeFails then (s, Failed)
      else (s.(users := s.users[u := user.(externalId := input.externalId, disabled := !input.active)]), Reloaded(w))
    else (s, Forbidden)
  }

  function UpdatedRow(user: User, input: UserInput): User {
    user.(email := input.email, displayName := input.displayName, externalId := input.externalId, disabled := !input.active)
  }

  function UpdateOwned(cfg: Config, s: State, u: nat, input: UserInput, w: World): (State, Status)
    requires u in s.users
  {
    var user := s.users[u];
    if input.email != user.email && !w.emailLookupFails && EmailTakenByOther(s, input.email, u) then (s, Conflict)
    else if w.writeFails || !RowAllowed(s, u, UpdatedRow(user, input)) then (s, Failed)
    else UpdateAccount(cfg, s.(users := s.users[u := UpdatedRow(user, input)]), user, input, w)
  }

  /** The identity-provider half of an update; `user` is the row as it was. */
  function UpdateAccount(cfg: Config, s: State, user: User, input: UserInput, w: World): (State, Status) {
    if !cfg.hasIdp || Synthetic(user.sub) then (s, Reloaded(w))
    else if user.disabled == input.active && w.enableFails then (s, Failed)
    else
      var s1 := if user.disabled == input.active then SetEnabled(s, user.sub, input.active) else s;
      if input.email == user.email && input.displayName == user.displayName then (s1, Reloaded(w))
      else if w.profileFails then (s1, Failed)
      else (SetProfile(s1, user.sub, input.email, input.displayName), Reloaded(w))
  }

  function WithoutUser(s: State, u: nat): State {
    s.(users := map k | k in s.users && k != u :: s.users[k], roles := set a | a in s.roles && a.user != u)
  }

  function Delete(cfg: Config, s: State, u: nat, w: World): (State, Status) {
    if !InScope(cfg, s, u) then (s, NotFound)
    else if w.lookupFails then (s, Failed)
    else if Owns(cfg, s, u) then Remove(cfg, s, u, w)
    else if cfg.heldElsewhere.Some? && cfg.ownDatabase && w.memberFails then (s, Failed)
    else if MemberHere(cfg, s, u) then Remove(cfg, s, u, w)
    else Leave(cfg, s, u, w)
  }

  /** Someone else's user loses its place in the tenant. */
  function Leave(cfg: Config, s: State, u: nat, w: World): (State, Status) {
    if !cfg.canRemove then (s, Forbidden)
    else if w.removableFails then (s, Failed)
    else if !Removable(cfg, s, u) then (s, Forbidden)
    else if w.removeFails then (s, Failed)
    else if !w.removed then (s, Forbidden)
    else (s.(roles := set a | a in s.roles && !(a.user == u && a.workspace in cfg.workspaces)), Done)
  }

  /** The row goes, with its roles, and then its account unless another database holds it. */
  function Remove(cfg: Config, s: State, u: nat, w: World): (State, Status)
    requires u in s.users
  {
    if w.writeFails then (s, Failed)
    else
      var sub, s1 := s.users[u].sub, WithoutUser(s, u);
      if !cfg.hasIdp || Synthetic(sub) then (s1, Done)
      else if cfg.heldElsewhere.Some? && (w.heldAgainFails || Held(cfg, "", sub)) then (s1, Done)
      else if w.deleteFails then (s1, Done)
      else (WithoutAccount(s1, sub), Done)
  }

  datatype Request = CreateUser(input: UserInput) | UpdateUser(id: nat, input: UserInput) | DeleteUser(id: nat)

  function Handle(cfg: Config, s: State, r: Request, w: World): State {
    match r
    case CreateUser(input) => Create(cfg, s, input, w).0
    case UpdateUser(id, input) => Update(cfg, s, id, input, w).0
    case DeleteUser(id) => Delete(cfg, s, id, w).0
  }
}
