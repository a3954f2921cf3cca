/** The directory's request handlers, step by step on the stored rows and accounts. */
module ScimService {
  import opened Basics
  import opened Scim
  import opened ScimOutcomes
  import opened ScimSafety
  import opened Text

  class Directory {
    const cfg: Config
    var users: map<nat, User>
    var roles: set<Assignment>
    var idp: map<string, Account>

    ghost function Now(): State
      reads this
    {
      State(users, roles, idp)
    }

    constructor (cfg: Config, s: State)
      ensures this.cfg == cfg && Now() == s
    {
      this.cfg := cfg;
      users, roles, idp := s.users, s.roles, s.idp;
    }

    /** Undoes the account a failed creation made. */
    method AbortIdP(w: World, created: bool, sub: string)
      modifies this`idp
      ensures Now() == Abort(old(Now()), w, created, sub)
    {
      if created && !w.abortFails {
        idp := map k | k in idp && k != sub :: idp[k];
      }
    }

    /** Finds or makes the identity-provider account: the subject to store, or the refusal. */
    method PrepareAccount(input: UserInput, w: World) returns (refusal: Option<Status>, sub: string, created: bool)
      modifies this`idp
      ensures var p := Prepare(cfg, old(Now()), input, w);
        && Now() == p.state
        && (p.Refused? ==> refusal == Some(p.status))
        && (p.Ready? ==> refusal == None && sub == p.sub && created == p.created)
    {
      refusal, sub, created := None, SYNTHETIC + input.email, false;
      if !cfg.hasIdp {
        return;
      }
      if w.findFails {
        return Some(Failed), sub, created;
      }
      if w.found != "" {
        if !w.subLookupFails && exists u :: u in users && users[u].sub == w.found {
          return Some(Conflict), sub, created;
        }
        if cfg.heldElsewhere.Some? {
          if w.heldAgainFails {
            return Some(Failed), sub, created;
          }
          if cfg.heldElsewhere.value(input.email, w.found) {
            return Some(Conflict), sub, created;
          }
        }
        sub := w.found;
      } else {
        if w.createFails {
          return Some(Failed), sub, created;
        }
        sub, created := w.newSub, true;
        idp := idp[sub := Account(input.email, input.displayName, true, {})];
      }
      if w.realmRoleFails {
        AbortIdP(w, created, sub);
        return Some(Failed), sub, created;
      }
      if sub in idp {
        idp := idp[sub := idp[sub].(realmRoles := idp[sub].realmRoles + {cfg.defaultRole})];
      }
    }

    /** Writes the row, unless that fails or the table refuses it. */
    method UpsertUser(input: UserInput, w: World, sub: string) returns (ok: bool, u: nat)
      modifies this`users
      ensures u == UpsertId(old(Now()), w, sub) && ok == Writes(cfg, old(Now()), input, w, sub)
      ensures Now() == if ok then Upsert(cfg, old(Now()), input, w, sub) else old(Now())
    {
      var s := State(users, roles, idp);
      u := UpsertId(s, w, sub);
      var row := User(sub, input.email, input.displayName, input.externalId, Some(cfg.tenant), !input.active, false);
      if exists o :: o in users && users[o].sub == sub {
        var was := users[u];
        var customer := if was.customer.Some? then was.customer else Some(cfg.tenant);
        row := was.(email := input.email, displayName := input.displayName,
                    externalId := input.externalId, disabled := !input.active, customer := customer);
      }
      ok := !w.writeFails && RowAllowed(s, u, row);
      if ok {
        users := users[u := row];
      }
    }

    /** Writes the row and the default role, and disables the account of an inactive user. */
    method StoreUser(input: UserInput, w: World, sub: string, created: bool) returns (status: Status)
      modifies this
      ensures (Now(), status) == Finish(cfg, old(Now()), input, w, sub, created)
    {
      var ok, u := UpsertUser(input, w, sub);
      if !ok {
        AbortIdP(w, created, sub);
        return Failed;
      }
      if w.roleFails {
        return Failed;
      }
      roles := roles + {Assignment(u, cfg.defaultRole, cfg.workspace)};
      if cfg.hasIdp && !input.active && !w.enableFails && sub in idp {
        idp := idp[sub := idp[sub].(enabled := false)];
      }
      return Reloaded(w);
    }

    method CreateUser(input0: UserInput, w: World) returns (status: Status)
      modifies this
      ensures (Now(), status) == Create(cfg, old(Now()), input0, w)
      ensures KeepsAddresses(cfg, old(Now()), Request.CreateUser(input0), w, Now())
      ensures KeepsUnowned(cfg, old(Now()), Request.CreateUser(input0), w, Now())
      ensures NoStrayAccount(cfg, old(Now()), w, Now())
      ensures status == Done && Fresh(cfg, old(Now()), w) && !SubTaken(old(Now()), NewSubject(cfg, input0, w)) ==>
        CreateLeaves(cfg, old(Now()), input0, w, Now())
    {
      ghost var s := Now();
      status := Provision(input0, w);
      HandlerPromises(cfg, s, Request.CreateUser(input0), w);
      CreatePromises(cfg, s, input0, w);
      if status == Done && Fresh(cfg, s, w) && !SubTaken(s, NewSubject(cfg, input0, w)) {
        CreateDone(cfg, s, input0, w);
      }
    }

    /** The steps of a creation. */
    method Provision(input0: UserInput, w: World) returns (status: Status)
      modifies this
      ensures (Now(), status) == Create(cfg, old(Now()), input0, w)
    {
      var input := input0.(email := Key(input0.email));
      if !ValidEmail(input.email) {
        return BadRequest;
      }
      if !w.emailLookupFails && exists u :: u in users && Lower(users[u].email) == input.email {
        return Conflict;
      }
      if cfg.heldElsewhere.Some? {
        if w.lookupFails {
          return Failed;
        }
        if cfg.heldElsewhere.value(input.email, "") {
          return Conflict;
        }
      }
      if w.refused {
        return Forbidden;
      }
      if input.displayName == "" {
        input := input.(displayName := input.email);
      }
      var refusal, sub, created := PrepareAccount(input, w);
      if refusal.Some? {
        return refusal.value;
      }
      status := StoreUser(input, w, sub, created);
    }

    /** The identity-provider half of an update. */
    method PushAccount(user: User, input: UserInput, w: World) returns (status: Status)
      modifies this`idp
      ensures (Now(), status) == UpdateAccount(cfg, old(Now()), user, input, w)
    {
      var sub := user.sub;
      if cfg.hasIdp && !(SYNTHETIC <= sub) && !(ADMIN_CREATED <= sub) {
        var wasActive := !user.disabled;
        if wasActive != input.active {
          if w.enableFails {
            return Failed;
          }
          if sub in idp {
            idp := idp[sub := idp[sub].(enabled := input.active)];
          }
        }
        if input.email != user.email || input.displayName != user.displayName {
          if w.profileFails {
            return Failed;
          }
          if sub in idp {
            idp := idp[sub := idp[sub].(email := input.email, name := input.displayName)];
          }
        }
      }
      return Reloaded(w);
    }

    method UpdateUser(u: nat, input0: UserInput, w: World) returns (status: Status)
      modifies this
      ensures (Now(), status) == Update(cfg, old(Now()), u, input0, w)
      ensures KeepsAddresses(cfg, old(Now()), Request.UpdateUser(u, input0), w, Now())
      ensures KeepsUnowned(cfg, old(Now()), Request.UpdateUser(u, input0), w, Now())
      ensures Now() == old(Now()) || ChangesOnly(old(Now()), Now(), u)
      ensures status == Done && TenantOwns(cfg, old(Now()), u) ==> UpdateLeaves(cfg, old(Now()), u, input0, Now())
    {
      ghost var s := Now();
      status := Change(u, input0, w);
      HandlerPromises(cfg, s, Request.UpdateUser(u, input0), w);
      UpdateTouches(cfg, s, u, input0, w);
      if status == Done && TenantOwns(cfg, s, u) { UpdateDone(cfg, s, u, input0, w); }
    }

    /** The steps of an update. */
    method Change(u: nat, input0: UserInput, w: World) returns (status: Status)
      modifies this
      ensures (Now(), status) == Update(cfg, old(Now()), u, input0, w)
    {
      var s := State(users, roles, idp);
      if !InScope(cfg, s, u) {
        return NotFound;
      }
      var user := users[u];
      var input := input0.(email := Key(input0.email));
      if input.displayName == "" {
        input := input.(displayName := user.displayName);
      }
      if !ValidEmail(input.email) {
        return BadRequest;
      }
      if w.lookupFails {
        return Failed;
      }
      if !Owns(cfg, s, u) {
        status := UpdateMember(u, input, w);
        return;
      }
      if input.email != user.email && !w.emailLookupFails && EmailTakenByOther(s, input.email, u) {
        return Conflict;
      }
      var row := user.(email := input.email, displayName := input.displayName,
                       externalId := input.externalId, disabled := !input.active);
      if w.writeFails || !RowAllowed(s, u, row) {
        return Failed;
      }
      users := users[u := row];
      status := PushAccount(user, input, w);
    }

    /** An update of a user the tenant does not own. */
    method UpdateMember(u: nat, input: UserInput, w: World) returns (status: Status)
      requires u in users
      modifies this`users
      ensures (Now(), status) == UpdateUnowned(cfg, old(Now()), u, input, w)
    {
      var user := users[u];
      if ChangesNothing(user, input) {
        return Done;
      }
      if input.email == Lower(user.email) && input.displayName == user.displayName {
        if cfg.heldElsewhere.Some? && cfg.ownDatabase && w.memberFails {
          return Failed;
        }
        if MemberHere(cfg, State(users, roles, idp), u) {
          if w.writeFails {
            return Failed;
          }
          users := users[u := user.(externalId := input.externalId, disabled := !input.active)];
          return Reloaded(w);
        }
      }
      return Forbidden;
    }

    method DeleteUser(u: nat, w: World) returns (status: Status)
      modifies this
      ensures (Now(), status) == Delete(cfg, old(Now()), u, w)
      ensures KeepsAddresses(cfg, old(Now()), Request.DeleteUser(u), w, Now())
      ensures KeepsUnowned(cfg, old(Now()), Request.DeleteUser(u), w, Now())
      ensures forall v :: v in users ==> v in old(users) && users[v] == old(users[v])
      ensures TenantOwns(cfg, old(Now()), u) ==> (status == Done <==> !w.lookupFails && !w.writeFails)
      ensures status == Done && TenantOwns(cfg, old(Now()), u) ==> DeleteLeaves(cfg, old(Now()), u, w, Now())
    {
      ghost var s := Now();
      status := Deprovision(u, w);
      HandlerPromises(cfg, s, Request.DeleteUser(u), w);
      DeleteTouches(cfg, s, u, w);
      if TenantOwns(cfg, s, u) { DeleteDone(cfg, s, u, w); }
    }

    /** The steps of a deletion. */
    method Deprovision(u: nat, w: World) returns (status: Status)
      modifies this
      ensures (Now(), status) == Delete(cfg, old(Now()), u, w)
    {
      var s := State(users, roles, idp);
      if !InScope(cfg, s, u) {
        return NotFound;
      }
      if w.lookupFails {
        return Failed;
      }
      if !Owns(cfg, s, u) {
        if cfg.heldElsewhere.Some? && cfg.ownDatabase && w.memberFails {
          return Failed;
        }
        if !MemberHere(cfg, s, u) {
          status := RemoveMember(u, w);
          return;
        }
      }
      status := RemoveUser(u, w);
    }

    /** Someone else's user loses its roles in the tenant's workspaces. */
    method RemoveMember(u: nat, w: World) returns (status: Status)
      modifies this`roles
      ensures (Now(), status) == Leave(cfg, old(Now()), u, w)
    {
      if cfg.canRemove {
        if w.removableFails {
          return Failed;
        }
        if Removable(cfg, State(users, roles, idp), u) {
          if w.removeFails {
            return Failed;
          }
          if w.removed {
            roles := set a | a in roles && !(a.user == u && a.workspace in cfg.workspaces);
            return Done;
          }
        }
      }
      return Forbidden;
    }

    method RemoveUser(u: nat, w: World) returns (status: Status)
      requires u in users
      modifies this
      ensures (Now(), status) == Remove(cfg, old(Now()), u, w)
    {
      if w.writeFails {
        return Failed;
      }
      var sub := users[u].sub;
      users := map k | k in users && k != u :: users[k];
      roles := set a | a in roles && a.user != u;
      if cfg.hasIdp && !(SYNTHETIC <= sub) && !(ADMIN_CREATED <= sub) {
        if cfg.heldElsewhere.Some? {
          if w.heldAgainFails || cfg.heldElsewhere.value("", sub) {
            return Done;
          }
        }
        if !w.deleteFails {
          idp := map k | k in idp && k != sub :: idp[k];
        }
      }
      return Done;
    }
  }
}
