/** What requests leave behind when they succeed, when they do, and what they never touch, told from the
    input and the stored fields. */
module ScimOutcomes {
  import opened Basics
  import opened Scim
  import opened ScimSafety
  import opened Text

  // ---- vocabulary ----

  /** The tenant's own user, no platform admin, and without platform reach. */
  ghost predicate TenantOwns(cfg: Config, s: State, u: nat) {
    && u in s.users && s.users[u].customer == Some(cfg.tenant)
    && (forall a :: a in s.roles && a.user == u ==> a.role != "platform_admin")
    && (cfg.platformReach.Some? ==> !cfg.platformReach.value(s.users[u].sub))
  }

  /** A user of no tenant, no stand-in and no platform admin or reach, whose account another database
      holds while the tenant has a database of its own. */
  ghost predicate BorrowedHere(cfg: Config, s: State, u: nat) {
    && u in s.users && s.users[u].customer == None && !s.users[u].standIn
    && (forall a :: a in s.roles && a.user == u ==> a.role != "platform_admin")
    && (cfg.platformReach.Some? ==> !cfg.platformReach.value(s.users[u].sub))
    && cfg.ownDatabase && cfg.heldElsewhere.Some? && cfg.heldElsewhere.value("", s.users[u].sub)
  }

  /** The tenant's own user, or one with a role in its workspaces. */
  ghost predicate Listed(cfg: Config, s: State, u: nat) {
    u in s.users &&
    (s.users[u].customer == Some(cfg.tenant) || exists a :: a in s.roles && a.user == u && a.workspace in cfg.workspaces)
  }

  /** Made by this directory or the console without an identity provider, so without an account. */
  predicate MadeUp(sub: string) {
    "scim-created-" <= sub || "admin-created-" <= sub
  }

  /** A person's address: with an @, and not in the reserved domain. */
  ghost predicate Addressable(email: string) {
    '@' in email && !(exists name :: email == name + "@stand-in.invalid")
  }

  predicate SomeoneHas(s: State, email: string) {
    exists o :: o in s.users && Lower(s.users[o].email) == email
  }

  predicate SomeoneElseHas(s: State, email: string, u: nat) {
    exists o :: o in s.users && o != u && Lower(s.users[o].email) == email
  }

  /** No other row has the subject or the address, letter for letter. */
  predicate NoClash(s: State, u: nat, sub: string, email: string) {
    forall o :: o in s.users && o != u ==> s.users[o].sub != sub && s.users[o].email != email
  }

  lemma OwnsIs(cfg: Config, s: State, u: nat)
    ensures Owns(cfg, s, u) <==> TenantOwns(cfg, s, u)
    ensures MemberHere(cfg, s, u) <==> BorrowedHere(cfg, s, u)
    ensures InScope(cfg, s, u) <==> Listed(cfg, s, u)
  {
    assert HasPlatformAdmin(s.roles, u) <==> exists a :: a in s.roles && a.user == u && a.role == "platform_admin";
  }

  lemma ReservedIs(email: string)
    ensures Reserved(email) <==> exists name :: email == name + "@stand-in.invalid"
  {
    if Reserved(email) {
      var n := |email| - |RESERVED|;
      assert email == email[..n] + "@stand-in.invalid";
    }
    forall name | email == name + "@stand-in.invalid"
      ensures Reserved(email)
    {
      assert email[|name|..] == "@stand-in.invalid";
    }
  }

  lemma AddressableIs(email: string)
    ensures ValidEmail(email) <==> Addressable(email)
  {
    ReservedIs(email);
  }

  // ---- updates ----

  /** The name an update gives: the old one when it is left blank. */
  function NewName(user: User, input: UserInput): string {
    if input.displayName == "" then user.displayName else input.displayName
  }

  /** What a successful update of the tenant's own user leaves: its row with the trimmed, lower-cased address,
      the name, external id and state of the input; and, if it has an account, that account enabled or
      disabled when the state changed, and with the new address and name when one of them did. */
  ghost predicate UpdateLeaves(cfg: Config, s: State, u: nat, input: UserInput, t: State) {
    u in s.users &&
    var user, email, name := s.users[u], Key(input.email), NewName(s.users[u], input);
    && t.users == s.users[u := User(user.sub, email, name, input.externalId, user.customer, !input.active, user.standIn)]
    && t.roles == s.roles
    && if !cfg.hasIdp || MadeUp(user.sub) || user.sub !in s.idp then t.idp == s.idp
       else
         var was := s.idp[user.sub];
         var moved := email != user.email || name != user.displayName;
         t.idp == s.idp[user.sub := Account(
           if moved then email else was.email,
           if moved then name else was.name,
           if input.active != !user.disabled then input.active else was.enabled,
           was.realmRoles)]
  }

  lemma AccountFollows(cfg: Config, s: State, user: User, input: UserInput, w: World)
    requires UpdateAccount(cfg, s, user, input, w).1 == Done
    ensures var t := UpdateAccount(cfg, s, user, input, w).0;
      && t.users == s.users && t.roles == s.roles
      && if !cfg.hasIdp || MadeUp(user.sub) || user.sub !in s.idp then t.idp == s.idp
         else
           var was := s.idp[user.sub];
           var moved := input.email != user.email || input.displayName != user.displayName;
           t.idp == s.idp[user.sub := Account(
             if moved then input.email else was.email,
             if moved then input.displayName else was.name,
             if input.active != !user.disabled then input.active else was.enabled,
             was.realmRoles)]
  {
    if user.sub in s.idp { assert s.idp == s.idp[user.sub := s.idp[user.sub]]; }
  }

  lemma UpdateDone(cfg: Config, s: State, u: nat, input: UserInput, w: World)
    requires TenantOwns(cfg, s, u) && Update(cfg, s, u, input, w).1 == Done
    ensures UpdateLeaves(cfg, s, u, input, Update(cfg, s, u, input, w).0)
  {
    OwnsIs(cfg, s, u);
    var user, i := s.users[u], UpdateInput(s.users[u], input);
    AccountFollows(cfg, s.(users := s.users[u := UpdatedRow(user, i)]), user, i, w);
  }

  /** An update of the tenant's own user succeeds exactly when the address is a person's, nobody else has it
      as far as the lookup and the table tell, and none of the calls it makes fails. */
  lemma UpdateDoneIff(cfg: Config, s: State, u: nat, input: UserInput, w: World)
    requires TenantOwns(cfg, s, u) && !s.users[u].standIn
    ensures var user, email := s.users[u], Key(input.email);
      var account := cfg.hasIdp && !MadeUp(user.sub);
      Update(cfg, s, u, input, w).1 == Done <==>
      && Addressable(email) && !w.lookupFails
      && (email == user.email || w.emailLookupFails || !SomeoneElseHas(s, email, u))
      && NoClash(s, u, user.sub, email) && !w.writeFails
      && (account && input.active != !user.disabled ==> !w.enableFails)
      && (account && (email != user.email || NewName(user, input) != user.displayName) ==> !w.profileFails)
      && !w.reloadFails
  {
    OwnsIs(cfg, s, u);
    AddressableIs(Key(input.email));
    KeyIsLower(input.email);
  }

  /** An update of a borrowed user succeeds only with the address and name it has, and leaves its external id
      and state in the row, and nothing else changed. */
  lemma BorrowedUpdateDone(cfg: Config, s: State, u: nat, input: UserInput, w: World)
    requires BorrowedHere(cfg, s, u) && Update(cfg, s, u, input, w).1 == Done
    ensures var user := s.users[u];
      && Key(input.email) == Lower(user.email) && NewName(user, input) == user.displayName
      && Update(cfg, s, u, input, w).0 ==
         s.(users := s.users[u := user.(externalId := input.externalId, disabled := !input.active)])
  {
    OwnsIs(cfg, s, u);
    var user := s.users[u];
    if ChangesNothing(user, UpdateInput(user, input)) {
      assert s.users == s.users[u := user.(externalId := input.externalId, disabled := !input.active)];
    }
  }

  /** It succeeds exactly when nothing at all would change, or no call fails. Of anyone else's user only the
      first is answered as done. */
  lemma UnownedUpdateDoneIff(cfg: Config, s: State, u: nat, input: UserInput, w: World)
    requires Listed(cfg, s, u) && !TenantOwns(cfg, s, u)
    ensures var user := s.users[u];
      Update(cfg, s, u, input, w).1 == Done <==>
      && Addressable(Key(input.email)) && !w.lookupFails
      && Key(input.email) == Lower(user.email) && NewName(user, input) == user.displayName
      && ((input.externalId == user.externalId && input.active != user.disabled) ||
          (BorrowedHere(cfg, s, u) && !w.memberFails && !w.writeFails && !w.reloadFails))
  {
    OwnsIs(cfg, s, u);
    AddressableIs(Key(input.email));
  }

  /** Of anyone else's user an update changes nothing, and it touches no account but of the tenant's own
      user. */
  lemma UpdateNeedsOwnership(cfg: Config, s: State, u: nat, input: UserInput, w: World)
    ensures !TenantOwns(cfg, s, u) ==> Update(cfg, s, u, input, w).0.idp == s.idp
    ensures !TenantOwns(cfg, s, u) && !BorrowedHere(cfg, s, u) ==> Update(cfg, s, u, input, w).0 == s
    ensures !Listed(cfg, s, u) ==> Update(cfg, s, u, input, w) == (s, NotFound)
  {
    OwnsIs(cfg, s, u);
  }

  // ---- deletions ----

  /** What a successful deletion of the tenant's own user leaves: no row and no role of it, and no account
      unless there is none to delete, another database holds it or may, or its deletion fails. */
  ghost predicate DeleteLeaves(cfg: Config, s: State, u: nat, w: World, t: State) {
    u in s.users &&
    var sub := s.users[u].sub;
    && t.users == (map v | v in s.users && v != u :: s.users[v])
    && t.roles == (set a | a in s.roles && a.user != u)
    && if !cfg.hasIdp || MadeUp(sub) || w.deleteFails ||
          (cfg.heldElsewhere.Some? && (w.heldAgainFails || cfg.heldElsewhere.value("", sub)))
       then t.idp == s.idp
       else t.idp == map k | k in s.idp && k != sub :: s.idp[k]
  }

  lemma DeleteDone(cfg: Config, s: State, u: nat, w: World)
    requires TenantOwns(cfg, s, u)
    ensures Delete(cfg, s, u, w).1 == Done <==> !w.lookupFails && !w.writeFails
    ensures Delete(cfg, s, u, w).1 == Done ==> DeleteLeaves(cfg, s, u, w, Delete(cfg, s, u, w).0)
  {
    OwnsIs(cfg, s, u);
  }

  /** Of a borrowed user a deletion removes the row and its roles, and no account. Of anyone else's it removes
      at most roles in the tenant's workspaces, and of a platform admin or one with reach nothing. */
  lemma DeleteNeedsOwnership(cfg: Config, s: State, u: nat, w: World)
    requires !TenantOwns(cfg, s, u)
    ensures var t := Delete(cfg, s, u, w).0;
      && t.idp == s.idp
      && (!BorrowedHere(cfg, s, u) ==> t.users == s.users)
      && (!BorrowedHere(cfg, s, u) && t != s ==>
            && t.roles == (set a | a in s.roles && !(a.user == u && a.workspace in cfg.workspaces))
            && (forall a :: a in s.roles && a.user == u ==> a.role != "platform_admin")
            && (cfg.platformReach.Some? ==> u in s.users && !cfg.platformReach.value(s.users[u].sub)))
    ensures !Listed(cfg, s, u) ==> Delete(cfg, s, u, w) == (s, NotFound)
  {
    OwnsIs(cfg, s, u);
  }

  /** A borrowed user's row and roles go whenever nothing fails. */
  lemma BorrowedDeleteDone(cfg: Config, s: State, u: nat, w: World)
    requires BorrowedHere(cfg, s, u) && Listed(cfg, s, u) && !w.lookupFails && !w.memberFails && !w.writeFails
    ensures var (t, status) := Delete(cfg, s, u, w);
      status == Done && t.users == (map v | v in s.users && v != u :: s.users[v]) && t.roles == (set a | a in s.roles && a.user != u)
  {
    OwnsIs(cfg, s, u);
  }

  /** Anyone else's user leaves the tenant, keeping its row: exactly when the tenant can remove it, it is no
      platform admin and without reach, and nothing fails. */
  lemma OthersLeaveIff(cfg: Config, s: State, u: nat, w: World)
    requires Listed(cfg, s, u) && !TenantOwns(cfg, s, u) && !BorrowedHere(cfg, s, u)
    ensures var (t, status) := Delete(cfg, s, u, w);
      && (status == Done <==>
            && !w.lookupFails && !(cfg.heldElsewhere.Some? && cfg.ownDatabase && w.memberFails)
            && cfg.canRemove && !w.removableFails && !w.removeFails && w.removed
            && (forall a :: a in s.roles && a.user == u ==> a.role != "platform_admin")
            && (cfg.platformReach.Some? ==> !cfg.platformReach.value(s.users[u].sub)))
      && (status == Done ==> t == s.(roles := set a | a in s.roles && !(a.user == u && a.workspace in cfg.workspaces)))
  {
    OwnsIs(cfg, s, u);
  }

  // ---- creations ----

  /** The subject a creation stores. */
  function NewSubject(cfg: Config, input: UserInput, w: World): string {
    if !cfg.hasIdp then "scim-created-" + Key(input.email) else if w.found == "" then w.newSub else w.found
  }

  function GivenName(input: UserInput): string {
    if input.displayName == "" then Key(input.email) else input.displayName
  }

  /** What a successful creation of a user with a new subject leaves: its row, the default role, and with an
      identity provider the account made or found, with the default role and enabled unless the user is
      inactive and disabling works. */
  ghost predicate CreateLeaves(cfg: Config, s: State, input: UserInput, w: World, t: State) {
    var sub, email, name := NewSubject(cfg, input, w), Key(input.email), GivenName(input);
    && t.users == s.users[w.newId := User(sub, email, name, input.externalId, Some(cfg.tenant), !input.active, false)]
    && t.roles == s.roles + {Assignment(w.newId, cfg.defaultRole, cfg.workspace)}
    && (!cfg.hasIdp ==> t.idp == s.idp)
    && (cfg.hasIdp && w.found == "" ==>
          t.idp == s.idp[sub := Account(email, name, input.active || w.enableFails, {cfg.defaultRole})])
    && (cfg.hasIdp && w.found != "" && sub in s.idp ==>
          t.idp == s.idp[sub := AccountAdopted(cfg, s.idp[sub], input.active || w.enableFails)])
  }

  function AccountAdopted(cfg: Config, was: Account, active: bool): Account {
    Account(was.email, was.name, was.enabled && active, was.realmRoles + {cfg.defaultRole})
  }

  lemma PassesWhenDone(cfg: Config, s: State, input: UserInput, w: World)
    requires Create(cfg, s, input, w).1 == Done
    ensures Passes(cfg, s, input, w)
  {
  }

  lemma PreparedIs(cfg: Config, s: State, input: UserInput, w: World)
    requires Fresh(cfg, s, w) && Passes(cfg, s, input, w)
    ensures var p := Prepare(cfg, s, Stored(input), w);
      && p.sub == NewSubject(cfg, input, w) && p.state.users == s.users && p.state.roles == s.roles
      && p.state.idp == if !cfg.hasIdp then s.idp
                        else if w.found == "" then s.idp[p.sub := Account(Key(input.email), GivenName(input), true, {cfg.defaultRole})]
                        else s.idp[p.sub := s.idp[p.sub].(realmRoles := s.idp[p.sub].realmRoles + {cfg.defaultRole})]
  {
    if cfg.hasIdp && w.found == "" {
      var made := Account(Key(input.email), GivenName(input), true, {});
      var p := Prepare(cfg, s, Stored(input), w);
      assert made.realmRoles + {cfg.defaultRole} == {cfg.defaultRole};
      assert p.state.idp == s.idp[w.newSub := made][w.newSub := made.(realmRoles := {cfg.defaultRole})];
    }
  }

  lemma FinishedIs(cfg: Config, s: State, input: UserInput, w: World, sub: string, created: bool)
    requires !SubTaken(s, sub) && Finish(cfg, s, input, w, sub, created).1 == Done
    ensures var t := Finish(cfg, s, input, w, sub, created).0;
      && t.users == s.users[w.newId := User(sub, input.email, input.displayName, input.externalId, Some(cfg.tenant), !input.active, false)]
      && t.roles == s.roles + {Assignment(w.newId, cfg.defaultRole, cfg.workspace)}
      && t.idp == if cfg.hasIdp && !input.active && !w.enableFails && sub in s.idp
                  then s.idp[sub := s.idp[sub].(enabled := false)] else s.idp
  {
  }

  lemma CreateDone(cfg: Config, s: State, input: UserInput, w: World)
    requires Fresh(cfg, s, w) && !SubTaken(s, NewSubject(cfg, input, w)) && Create(cfg, s, input, w).1 == Done
    ensures CreateLeaves(cfg, s, input, w, Create(cfg, s, input, w).0)
  {
    var p := Prepare(cfg, s, Stored(input), w);
    CreateIs(cfg, s, input, w);
    PassesWhenDone(cfg, s, input, w);
    PreparedIs(cfg, s, input, w);
    assert !SubTaken(p.state, p.sub);
    FinishedIs(cfg, p.state, Stored(input), w, p.sub, p.created);
  }

  /** When a row has the subject already, it is written over: only subject, stand-in mark and an existing
      tenant stay. */
  lemma OverwriteDone(cfg: Config, s: State, input: UserInput, w: World, u: nat)
    requires Fresh(cfg, s, w) && UniqueSubs(s) && u in s.users && s.users[u].sub == NewSubject(cfg, input, w)
    requires Create(cfg, s, input, w).1 == Done
    ensures var t, was := Create(cfg, s, input, w).0, s.users[u];
      && t.users == s.users[u := User(was.sub, Key(input.email), GivenName(input), input.externalId,
                                      if was.customer.Some? then was.customer else Some(cfg.tenant), !input.active, was.standIn)]
      && t.roles == s.roles + {Assignment(u, cfg.defaultRole, cfg.workspace)}
  {
    var i := Stored(input);
    var p := Prepare(cfg, s, i, w);
    CreateIs(cfg, s, input, w);
    PassesWhenDone(cfg, s, input, w);
    PreparedIs(cfg, s, input, w);
    assert SubTaken(p.state, p.sub) && UpsertId(p.state, w, p.sub) == u;
    FinishTouches(cfg, p.state, i, w, p.sub, p.created);
    WritesWhenDone(cfg, p.state, i, w, p.sub, p.created);
  }

  lemma WritesWhenDone(cfg: Config, s: State, input: UserInput, w: World, sub: string, created: bool)
    requires Finish(cfg, s, input, w, sub, created).1 == Done
    ensures Writes(cfg, s, input, w, sub) && !w.roleFails
  {
  }

  /** A creation of a user with a new subject succeeds exactly when the address is a person's, nobody has it,
      here or in another database, as far as the lookups and the table tell, the tenant may have another
      user, and none of the calls it makes fails. */
  lemma CreateDoneIff(cfg: Config, s: State, input: UserInput, w: World)
    requires Fresh(cfg, s, w) && !SubTaken(s, NewSubject(cfg, input, w))
    ensures var email, sub := Key(input.email), NewSubject(cfg, input, w);
      Create(cfg, s, input, w).1 == Done <==>
      && Addressable(email) && (w.emailLookupFails || !SomeoneHas(s, email))
      && (cfg.heldElsewhere.Some? ==> !w.lookupFails && !cfg.heldElsewhere.value(email, "")) && !w.refused
      && (cfg.hasIdp ==> !w.findFails && !w.realmRoleFails && (w.found == "" ==> !w.createFails))
      && (cfg.hasIdp && w.found != "" && cfg.heldElsewhere.Some? ==>
            !w.heldAgainFails && !cfg.heldElsewhere.value(email, w.found))
      && NoClash(s, w.newId, sub, email) && !w.writeFails && !w.roleFails && !w.reloadFails
  {
    var i := Stored(input);
    var p := Prepare(cfg, s, i, w);
    CreateIs(cfg, s, input, w);
    AddressableIs(i.email);
    KeyIsLower(input.email);
    ReservedIs(i.email);
    PassesIff(cfg, s, input, w);
    if Passes(cfg, s, input, w) {
      PreparedIs(cfg, s, input, w);
      SameUpsert(cfg, s, p.state, i, w, p.sub);
      assert !SubTaken(p.state, p.sub);
    }
  }

  lemma PassesIff(cfg: Config, s: State, input: UserInput, w: World)
    requires Fresh(cfg, s, w) && !SubTaken(s, NewSubject(cfg, input, w))
    ensures var email := Key(input.email);
      Passes(cfg, s, input, w) <==>
      && Addressable(email) && (w.emailLookupFails || !SomeoneHas(s, email))
      && (cfg.heldElsewhere.Some? ==> !w.lookupFails && !cfg.heldElsewhere.value(email, "")) && !w.refused
      && (cfg.hasIdp ==> !w.findFails && !w.realmRoleFails && (w.found == "" ==> !w.createFails))
      && (cfg.hasIdp && w.found != "" && cfg.heldElsewhere.Some? ==>
            !w.heldAgainFails && !cfg.heldElsewhere.value(email, w.found))
  {
    AddressableIs(Key(input.email));
    assert Stored(input).email == Key(input.email);
  }

  /** A creation is refused at once for an address that is no person's, and for one somebody has. */
  lemma CreateRefuses(cfg: Config, s: State, input: UserInput, w: World)
    ensures !Addressable(Key(input.email)) ==> Create(cfg, s, input, w) == (s, BadRequest)
    ensures Addressable(Key(input.email)) && !w.emailLookupFails && SomeoneHas(s, Key(input.email)) ==>
      Create(cfg, s, input, w) == (s, Conflict)
  {
    AddressableIs(Key(input.email));
  }
}
