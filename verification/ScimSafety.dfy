/** What every run of user requests keeps. */
module ScimSafety {
  import opened Basics
  import opened Scim
  import opened Text

  // ---- assumptions about the outside world ----

  /** Generated keys are new (no row, account or other database has them), and an account the identity
      provider says it found is there. */
  ghost predicate Fresh(cfg: Config, s: State, w: World) {
    && w.newId !in s.users && (forall a :: a in s.roles ==> a.user != w.newId)
    && w.newSub !in s.idp && !SubTaken(s, w.newSub) && !Held(cfg, "", w.newSub) && w.newSub != ""
    && (w.found == "" || w.found in s.idp)
  }

  /** A subject another database holds is held whatever address it is asked for with. */
  ghost predicate HeldBySubject(cfg: Config) {
    forall email, sub :: Held(cfg, "", sub) ==> Held(cfg, email, sub)
  }

  // ---- keys of the tables ----

  ghost predicate UniqueSubs(s: State) {
    forall u, v :: u in s.users && v in s.users && s.users[u].sub == s.users[v].sub ==> u == v
  }

  /** No two users have the same e-mail address, ignoring case. */
  ghost predicate UniqueEmails(s: State) {
    forall u, v :: u in s.users && v in s.users && Lower(s.users[u].email) == Lower(s.users[v].email) ==> u == v
  }

  // ---- an account the tenant does not own ----

  /** The identity-provider account is as it was, or as absent as it was. */
  ghost predicate SameAccount(s: State, t: State, sub: string) {
    (sub in s.idp <==> sub in t.idp) && (sub in s.idp ==> t.idp[sub] == s.idp[sub])
  }

  /** The row may differ only in external id and disabled state. */
  predicate SameIdentity(a: User, b: User) {
    b == a.(externalId := b.externalId, disabled := b.disabled)
  }

  /** The account with this subject is out of the tenant's hands: its row is not owned, or it has no
      row here and another database holds it. */
  ghost predicate Guarded(cfg: Config, s: State, sub: string) {
    if SubTaken(s, sub) then forall u :: u in s.users && s.users[u].sub == sub ==> !Owns(cfg, s, u)
    else Held(cfg, "", sub)
  }

  // ---- creation ----

  /** The input as it is stored. */
  function Stored(input: UserInput): UserInput {
    Named(input.(email := Key(input.email)))
  }

  /** Creation goes on with the account the identity provider found although a row here has its
      subject, because the lookup of that row failed. */
  predicate Adopts(cfg: Config, s: State, input: UserInput, w: World) {
    && CreateRefusal(cfg, s, input.(email := Key(input.email)), w).None? && cfg.hasIdp && !w.findFails
    && w.found != "" && SubTaken(s, w.found) && w.subLookupFails
    && !(cfg.heldElsewhere.Some? && w.heldAgainFails) && !Held(cfg, Stored(input).email, w.found) && !w.realmRoleFails
  }

  /** What is prepared when nothing is refused. */
  function Passes(cfg: Config, s: State, input: UserInput, w: World): bool {
    CreateRefusal(cfg, s, input.(email := Key(input.email)), w).None? && Prepare(cfg, s, Stored(input), w).Ready?
  }

  lemma AdoptsIffTaken(cfg: Config, s: State, input: UserInput, w: World)
    requires Fresh(cfg, s, w) && cfg.hasIdp
    ensures Adopts(cfg, s, input, w) <==> Passes(cfg, s, input, w) && SubTaken(s, Prepare(cfg, s, Stored(input), w).sub)
    ensures Adopts(cfg, s, input, w) ==>
      Prepare(cfg, s, Stored(input), w) == Ready(GrantRealmRole(s, w.found, cfg.defaultRole), w.found, false)
  {
  }

  lemma CreateIs(cfg: Config, s: State, input: UserInput, w: World)
    ensures var p := Prepare(cfg, s, Stored(input), w);
      Create(cfg, s, input, w).0 ==
      if CreateRefusal(cfg, s, input.(email := Key(input.email)), w).Some? then s
      else if p.Refused? then p.state
      else Finish(cfg, p.state, Stored(input), w, p.sub, p.created).0
  {
  }

  lemma PrepareKeepsTables(cfg: Config, s: State, input: UserInput, w: World)
    ensures var p := Prepare(cfg, s, input, w); p.state.users == s.users && p.state.roles == s.roles
  {
  }

  /** Preparing touches only the account it goes on with, or undoes. */
  lemma PrepareTouches(cfg: Config, s: State, input: UserInput, w: World, sub: string)
    requires Fresh(cfg, s, w) && cfg.hasIdp && sub != w.newSub
    ensures var p := Prepare(cfg, s, input, w); (p.Ready? ==> p.sub != sub) ==> SameAccount(s, p.state, sub)
  {
  }

  /** Finishing writes one row and at most one role, and touches only its account. */
  lemma FinishTouches(cfg: Config, s: State, input: UserInput, w: World, sub: string, created: bool)
    ensures var t, u := Finish(cfg, s, input, w, sub, created).0, UpsertId(s, w, sub);
      && (t.users == if Writes(cfg, s, input, w, sub) then s.users[u := UpsertRow(cfg, s, input, w, sub)] else s.users)
      && (t.roles == if Writes(cfg, s, input, w, sub) && !w.roleFails then s.roles + {Assignment(u, cfg.defaultRole, cfg.workspace)}
                     else s.roles)
      && (forall k :: k != sub ==> SameAccount(s, t, k))
  {
  }

  /** A subject held elsewhere is never gone on with. */
  lemma HeldIsRefused(cfg: Config, s: State, input: UserInput, w: World, sub: string)
    requires Fresh(cfg, s, w) && cfg.hasIdp && HeldBySubject(cfg) && Held(cfg, "", sub)
    ensures var p := Prepare(cfg, s, input, w); sub != w.newSub && (p.Ready? ==> p.sub != sub)
  {
  }

  /** Rows and roles stay, but for a new row and its role. */
  ghost predicate AddsOne(s: State, t: State, id: nat) {
    && (forall u :: u in s.users ==> u in t.users && t.users[u] == s.users[u])
    && (forall u :: u in t.users && u !in s.users ==> u == id && !SubTaken(s, t.users[u].sub))
    && (forall a :: a in s.roles ==> a in t.roles) && (forall a :: a in t.roles && a !in s.roles ==> a.user == id)
  }

  /** A creation that adopts no account with a row changes no existing row, no other user's roles, and
      no account that has a row here or is held elsewhere. */
  lemma CreateTouchesNothingElse(cfg: Config, s: State, input: UserInput, w: World, sub: string)
    requires Fresh(cfg, s, w) && cfg.hasIdp && HeldBySubject(cfg) && !Adopts(cfg, s, input, w)
    ensures AddsOne(s, Create(cfg, s, input, w).0, w.newId)
    ensures SubTaken(s, sub) || Held(cfg, "", sub) ==> SameAccount(s, Create(cfg, s, input, w).0, sub)
  {
    var i := Stored(input);
    var p := Prepare(cfg, s, i, w);
    CreateIs(cfg, s, input, w);
    AdoptsIffTaken(cfg, s, input, w);
    PrepareKeepsTables(cfg, s, i, w);
    if SubTaken(s, sub) || Held(cfg, "", sub) {
      if Held(cfg, "", sub) { HeldIsRefused(cfg, s, i, w, sub); }
      if Passes(cfg, s, input, w) { PrepareTouches(cfg, s, i, w, sub); } else { RefusedTouches(cfg, s, i, w, sub); }
    }
    if Passes(cfg, s, input, w) { FinishNew(cfg, s, p, i, w); }
  }

  lemma RefusedTouches(cfg: Config, s: State, input: UserInput, w: World, sub: string)
    requires Fresh(cfg, s, w) && cfg.hasIdp && sub != w.newSub
    ensures var p := Prepare(cfg, s, input, w); p.Refused? ==> SameAccount(s, p.state, sub)
  {
  }

  lemma FinishNew(cfg: Config, s: State, p: Prepared, input: UserInput, w: World)
    requires p.Ready? && p.state.users == s.users && p.state.roles == s.roles && !SubTaken(s, p.sub) && w.newId !in s.users
    ensures AddsOne(s, Finish(cfg, p.state, input, w, p.sub, p.created).0, w.newId)
    ensures forall k :: k != p.sub ==> SameAccount(p.state, Finish(cfg, p.state, input, w, p.sub, p.created).0, k)
  {
    assert SubTaken(p.state, p.sub) <==> SubTaken(s, p.sub);
    FinishTouches(cfg, p.state, input, w, p.sub, p.created);
  }

  // ---- creation that adopts an account with a row ----

  lemma SameUpsert(cfg: Config, s: State, t: State, input: UserInput, w: World, sub: string)
    requires s.users == t.users
    ensures UpsertId(s, w, sub) == UpsertId(t, w, sub) && UpsertRow(cfg, s, input, w, sub) == UpsertRow(cfg, t, input, w, sub)
    ensures Writes(cfg, s, input, w, sub) == Writes(cfg, t, input, w, sub)
  {
    assert SubTaken(s, sub) <==> SubTaken(t, sub);
    assert UpsertId(s, w, sub) == UpsertId(t, w, sub);
  }

  /** The row a creation writes over when it adopts the account found. */
  function TakenId(s: State, w: World): nat {
    UpsertId(s, w, w.found)
  }

  function TakenRow(cfg: Config, s: State, input: UserInput, w: World): User {
    UpsertRow(cfg, s, Stored(input), w, w.found)
  }

  predicate TakenWrites(cfg: Config, s: State, input: UserInput, w: World) {
    Writes(cfg, s, Stored(input), w, w.found)
  }

  /** The account as it is left: with the default role, and disabled for an inactive user. */
  function TakenAccount(cfg: Config, s: State, input: UserInput, w: World): Account
    requires w.found in s.idp
  {
    var a := s.idp[w.found].(realmRoles := s.idp[w.found].realmRoles + {cfg.defaultRole});
    if TakenWrites(cfg, s, input, w) && !w.roleFails && !input.active && !w.enableFails then a.(enabled := false) else a
  }

  /** Exactly what is changed when an account with a row is adopted. */
  lemma AdoptionWrites(cfg: Config, s: State, input: UserInput, w: World)
    requires Fresh(cfg, s, w) && Adopts(cfg, s, input, w)
    ensures var t, u := Create(cfg, s, input, w).0, TakenId(s, w);
      && u in s.users && s.users[u].sub == w.found
      && t.users == (if TakenWrites(cfg, s, input, w) then s.users[u := TakenRow(cfg, s, input, w)] else s.users)
      && t.roles == (if TakenWrites(cfg, s, input, w) && !w.roleFails
                     then s.roles + {Assignment(u, cfg.defaultRole, cfg.workspace)} else s.roles)
      && w.found in s.idp && w.found in t.idp && t.idp[w.found] == TakenAccount(cfg, s, input, w)
      && (forall k :: k != w.found ==> SameAccount(s, t, k))
  {
    var i := Stored(input);
    var granted := GrantRealmRole(s, w.found, cfg.defaultRole);
    CreateIs(cfg, s, input, w);
    AdoptsIffTaken(cfg, s, input, w);
    SameUpsert(cfg, s, granted, i, w, w.found);
    FinishTouches(cfg, granted, i, w, w.found, false);
    FinishedAccount(cfg, granted, i, w, w.found);
  }

  lemma FinishedAccount(cfg: Config, s: State, input: UserInput, w: World, sub: string)
    requires cfg.hasIdp && sub in s.idp
    ensures var t := Finish(cfg, s, input, w, sub, false).0;
      && sub in t.idp
      && t.idp[sub] == if Writes(cfg, s, input, w, sub) && !w.roleFails && !input.active && !w.enableFails
                       then s.idp[sub].(enabled := false) else s.idp[sub]
  {
  }

  ghost predicate KeepsRows(s: State, t: State) {
    forall u :: u in s.users ==> u in t.users && t.users[u] == s.users[u]
  }

  /** With an identity provider a creation keeps every existing row exactly when it does not write
      something else over the row of the account it found, whose lookup failed. */
  lemma CreateKeepsRowsIff(cfg: Config, s: State, input: UserInput, w: World)
    requires Fresh(cfg, s, w) && cfg.hasIdp && HeldBySubject(cfg)
    ensures KeepsRows(s, Create(cfg, s, input, w).0) <==>
      !(Adopts(cfg, s, input, w) && TakenWrites(cfg, s, input, w) && TakenRow(cfg, s, input, w) != s.users[TakenId(s, w)])
  {
    if Adopts(cfg, s, input, w) {
      AdoptionWrites(cfg, s, input, w);
    } else {
      CreateTouchesNothingElse(cfg, s, input, w, "");
    }
  }

  /** The row it writes over becomes the tenant's own. */
  predicate BecomesOwned(cfg: Config, s: State, u: nat, w: World) {
    && u in s.users && s.users[u].customer.None? && !HasPlatformAdmin(s.roles, u) && NotPlatformAccount(cfg, s.users[u])
    && (w.roleFails || cfg.defaultRole != PLATFORM_ADMIN)
  }

  /** A creation takes hold of the account with this subject: it changes the account or makes its row
      the tenant's own. */
  predicate Seizes(cfg: Config, s: State, r: Request, w: World, sub: string) {
    && r.CreateUser? && Adopts(cfg, s, r.input, w) && w.found == sub && sub in s.idp
    && (TakenAccount(cfg, s, r.input, w) != s.idp[sub] ||
        (TakenWrites(cfg, s, r.input, w) && BecomesOwned(cfg, s, TakenId(s, w), w)))
  }

  /** A creation writes another identity over row u. */
  predicate Rewrites(cfg: Config, s: State, r: Request, w: World, u: nat) {
    && r.CreateUser? && Adopts(cfg, s, r.input, w) && TakenWrites(cfg, s, r.input, w)
    && u == TakenId(s, w) && u in s.users && !SameIdentity(s.users[u], TakenRow(cfg, s, r.input, w))
  }

  lemma TakenOwnedIff(cfg: Config, s: State, input: UserInput, w: World)
    requires Fresh(cfg, s, w) && Adopts(cfg, s, input, w) && !Owns(cfg, s, TakenId(s, w))
    ensures var t := Create(cfg, s, input, w).0;
      Owns(cfg, t, TakenId(s, w)) <==> TakenWrites(cfg, s, input, w) && BecomesOwned(cfg, s, TakenId(s, w), w)
  {
    var t, u := Create(cfg, s, input, w).0, TakenId(s, w);
    AdoptionWrites(cfg, s, input, w);
    if HasPlatformAdmin(s.roles, u) {
      var a :| a in s.roles && a.user == u && a.role == PLATFORM_ADMIN;
      assert a in t.roles;
    }
    if TakenWrites(cfg, s, input, w) && !w.roleFails {
      assert Assignment(u, cfg.defaultRole, cfg.workspace) in t.roles;
    }
  }

  /** Ownership of a row that is not written over does not change. */
  lemma OthersKeepOwner(cfg: Config, s: State, t: State, u: nat, id: nat)
    requires u in s.users && u in t.users && t.users[u] == s.users[u] && u != id
    requires (forall a :: a in s.roles ==> a in t.roles) && (forall a :: a in t.roles && a !in s.roles ==> a.user == id)
    ensures Owns(cfg, t, u) <==> Owns(cfg, s, u)
  {
    assert HasPlatformAdmin(t.roles, u) <==> HasPlatformAdmin(s.roles, u);
  }

  lemma NewKeepsGuard(cfg: Config, s: State, t: State, id: nat, sub: string)
    requires AddsOne(s, t, id) && id !in s.users && Guarded(cfg, s, sub) && (!SubTaken(s, sub) ==> !SubTaken(t, sub))
    ensures Guarded(cfg, t, sub)
  {
    if SubTaken(s, sub) {
      var o :| o in s.users && s.users[o].sub == sub;
      assert t.users[o].sub == sub;
      forall u | u in t.users && t.users[u].sub == sub
        ensures !Owns(cfg, t, u)
      {
        assert u in s.users;
        OthersKeepOwner(cfg, s, t, u, id);
      }
    }
  }

  lemma OtherKeepsGuard(cfg: Config, s: State, input: UserInput, w: World, sub: string)
    requires Fresh(cfg, s, w) && Adopts(cfg, s, input, w) && w.found != sub && Guarded(cfg, s, sub)
    ensures Guarded(cfg, Create(cfg, s, input, w).0, sub)
  {
    var t, id := Create(cfg, s, input, w).0, TakenId(s, w);
    AdoptionWrites(cfg, s, input, w);
    assert t.users.Keys == s.users.Keys && forall u :: u in s.users ==> t.users[u].sub == s.users[u].sub;
    if SubTaken(s, sub) {
      var o :| o in s.users && s.users[o].sub == sub;
      assert t.users[o].sub == sub;
    }
    forall u | u in t.users && t.users[u].sub == sub
      ensures !Owns(cfg, t, u)
    {
      OthersKeepOwner(cfg, s, t, u, id);
    }
  }

  lemma CreateTakesNoHeldSub(cfg: Config, s: State, input: UserInput, w: World, sub: string)
    requires Fresh(cfg, s, w) && cfg.hasIdp && HeldBySubject(cfg) && Held(cfg, "", sub) && !SubTaken(s, sub)
    requires !Adopts(cfg, s, input, w)
    ensures !SubTaken(Create(cfg, s, input, w).0, sub)
  {
    var i := Stored(input);
    var p := Prepare(cfg, s, i, w);
    CreateIs(cfg, s, input, w);
    HeldIsRefused(cfg, s, i, w, sub);
    PrepareKeepsTables(cfg, s, i, w);
    AdoptsIffTaken(cfg, s, input, w);
    if Passes(cfg, s, input, w) {
      FinishTouches(cfg, p.state, i, w, p.sub, p.created);
      assert SubTaken(p.state, p.sub) <==> SubTaken(s, p.sub);
    }
  }

  lemma SeizedIffTaken(cfg: Config, s: State, input: UserInput, w: World)
    requires Fresh(cfg, s, w) && Adopts(cfg, s, input, w) && UniqueSubs(s) && Guarded(cfg, s, w.found)
    ensures var t := Create(cfg, s, input, w).0;
      Guarded(cfg, t, w.found) && SameAccount(s, t, w.found) <==> !Seizes(cfg, s, CreateUser(input), w, w.found)
  {
    var t, u := Create(cfg, s, input, w).0, TakenId(s, w);
    AdoptionWrites(cfg, s, input, w);
    TakenOwnedIff(cfg, s, input, w);
    assert t.users.Keys == s.users.Keys && forall v :: v in s.users ==> t.users[v].sub == s.users[v].sub;
    assert t.users[u].sub == w.found;
    assert Guarded(cfg, t, w.found) <==> !Owns(cfg, t, u);
  }

  /** An account out of the tenant's hands stays so, unchanged, exactly when the creation does not take
      hold of it. */
  lemma CreateGuardIff(cfg: Config, s: State, input: UserInput, w: World, sub: string)
    requires Fresh(cfg, s, w) && cfg.hasIdp && HeldBySubject(cfg) && UniqueSubs(s) && Guarded(cfg, s, sub)
    ensures var t := Create(cfg, s, input, w).0;
      Guarded(cfg, t, sub) && SameAccount(s, t, sub) <==> !Seizes(cfg, s, CreateUser(input), w, sub)
  {
    if !Adopts(cfg, s, input, w) {
      CreateTouchesNothingElse(cfg, s, input, w, sub);
      if !SubTaken(s, sub) { CreateTakesNoHeldSub(cfg, s, input, w, sub); }
      NewKeepsGuard(cfg, s, Create(cfg, s, input, w).0, w.newId, sub);
    } else if w.found == sub {
      SeizedIffTaken(cfg, s, input, w);
    } else {
      AdoptionWrites(cfg, s, input, w);
      OtherKeepsGuard(cfg, s, input, w, sub);
    }
  }

  /** The row of a user the tenant does not own keeps its identity, and its owner, exactly when the
      creation does not write another over it. */
  lemma CreateRowIff(cfg: Config, s: State, input: UserInput, w: World, u: nat)
    requires Fresh(cfg, s, w) && cfg.hasIdp && HeldBySubject(cfg) && u in s.users && !Owns(cfg, s, u)
    ensures var t := Create(cfg, s, input, w).0;
      u in t.users && (SameIdentity(s.users[u], t.users[u]) && !Owns(cfg, t, u) <==> !Rewrites(cfg, s, CreateUser(input), w, u))
  {
    var t := Create(cfg, s, input, w).0;
    if !Adopts(cfg, s, input, w) {
      CreateTouchesNothingElse(cfg, s, input, w, "");
      OthersKeepOwner(cfg, s, t, u, w.newId);
    } else {
      AdoptionWrites(cfg, s, input, w);
      if u == TakenId(s, w) {
        TakenOwnedIff(cfg, s, input, w);
      } else {
        OthersKeepOwner(cfg, s, t, u, TakenId(s, w));
      }
    }
  }

  // ---- updates ----

  lemma UpdateAccountTouches(cfg: Config, s: State, user: User, input: UserInput, w: World)
    ensures var t := UpdateAccount(cfg, s, user, input, w).0;
      t.users == s.users && t.roles == s.roles && forall sub :: sub != user.sub ==> SameAccount(s, t, sub)
  {
  }

  /** What an update of user id may change. */
  ghost predicate ChangesOnly(s: State, t: State, id: nat) {
    && id in s.users && t.users.Keys == s.users.Keys && t.roles == s.roles
    && (forall u :: u in s.users && u != id ==> t.users[u] == s.users[u])
    && t.users[id].sub == s.users[id].sub && t.users[id].customer == s.users[id].customer
    && (forall sub :: sub != s.users[id].sub ==> SameAccount(s, t, sub))
  }

  lemma UpdateOwnedTouches(cfg: Config, s: State, id: nat, input: UserInput, w: World)
    requires id in s.users
    ensures var t := UpdateOwned(cfg, s, id, input, w).0; t == s || ChangesOnly(s, t, id)
  {
    var user := s.users[id];
    UpdateAccountTouches(cfg, s.(users := s.users[id := UpdatedRow(user, input)]), user, input, w);
  }

  lemma UpdateTouches(cfg: Config, s: State, id: nat, input: UserInput, w: World)
    ensures var t := Update(cfg, s, id, input, w).0;
      && (t == s || ChangesOnly(s, t, id))
      && (id in s.users && !Owns(cfg, s, id) ==> SameIdentity(s.users[id], t.users[id]) && t.idp == s.idp)
  {
    if InScope(cfg, s, id) && Owns(cfg, s, id) {
      UpdateOwnedTouches(cfg, s, id, UpdateInput(s.users[id], input), w);
    }
  }

  lemma UpdateKeepsGuard(cfg: Config, s: State, id: nat, input: UserInput, w: World, sub: string)
    requires UniqueSubs(s) && Guarded(cfg, s, sub)
    ensures var t := Update(cfg, s, id, input, w).0; Guarded(cfg, t, sub) && SameAccount(s, t, sub)
  {
    UpdateTouches(cfg, s, id, input, w);
    ChangeKeepsGuard(cfg, s, Update(cfg, s, id, input, w).0, id, sub);
  }

  lemma ChangeKeepsGuard(cfg: Config, s: State, t: State, id: nat, sub: string)
    requires UniqueSubs(s) && Guarded(cfg, s, sub)
    requires (t == s || ChangesOnly(s, t, id)) && (id in s.users && !Owns(cfg, s, id) ==> t.idp == s.idp)
    ensures Guarded(cfg, t, sub) && SameAccount(s, t, sub)
  {
    if t != s {
      assert forall u :: u in s.users ==> t.users[u].sub == s.users[u].sub && t.users[u].customer == s.users[u].customer;
      assert forall u :: u in s.users ==> (Owns(cfg, t, u) <==> Owns(cfg, s, u));
      if SubTaken(s, sub) {
        var o :| o in s.users && s.users[o].sub == sub;
        assert o in t.users && t.users[o].sub == sub;
      }
    }
  }

  // ---- deletions ----

  lemma DeleteTouches(cfg: Config, s: State, id: nat, w: World)
    ensures var t := Delete(cfg, s, id, w).0;
      && (forall u :: u in t.users ==> u in s.users && t.users[u] == s.users[u])
      && (forall u :: u in s.users && u != id ==> u in t.users)
      && (forall a :: a in t.roles ==> a in s.roles)
      && (forall a :: a in s.roles && a.user != id ==> a in t.roles)
      && (id in s.users && !Owns(cfg, s, id) && !MemberHere(cfg, s, id) ==> id in t.users)
      && (id in s.users && !Owns(cfg, s, id) ==> t.idp == s.idp)
      && (forall sub :: id in s.users && sub != s.users[id].sub ==> SameAccount(s, t, sub))
      && (id !in s.users ==> t == s)
  {
  }

  lemma DeleteKeepsAdmins(cfg: Config, s: State, id: nat, w: World, u: nat)
    requires u in Delete(cfg, s, id, w).0.users && HasPlatformAdmin(s.roles, u)
    ensures HasPlatformAdmin(Delete(cfg, s, id, w).0.roles, u)
  {
    var a :| a in s.roles && a.user == u && a.role == PLATFORM_ADMIN;
    assert a in Delete(cfg, s, id, w).0.roles;
  }

  lemma DeleteKeepsGuard(cfg: Config, s: State, id: nat, w: World, sub: string)
    requires UniqueSubs(s) && Guarded(cfg, s, sub)
    ensures var t := Delete(cfg, s, id, w).0; Guarded(cfg, t, sub) && SameAccount(s, t, sub)
  {
    var t := Delete(cfg, s, id, w).0;
    DeleteTouches(cfg, s, id, w);
    forall u | u in t.users && t.users[u].sub == sub
      ensures !Owns(cfg, t, u)
    {
      assert !Owns(cfg, s, u);
      if HasPlatformAdmin(s.roles, u) { DeleteKeepsAdmins(cfg, s, id, w, u); }
    }
    if SubTaken(s, sub) && !SubTaken(t, sub) {
      var o :| o in s.users && s.users[o].sub == sub;
      assert o == id;
    }
  }

  // ---- every request, every run ----

  /** What a request keeps for an account out of the tenant's hands, exactly when it does not take hold
      of it. */
  lemma HandleGuardIff(cfg: Config, s: State, r: Request, w: World, sub: string)
    requires Fresh(cfg, s, w) && cfg.hasIdp && HeldBySubject(cfg) && UniqueSubs(s) && Guarded(cfg, s, sub)
    ensures var t := Handle(cfg, s, r, w);
      Guarded(cfg, t, sub) && SameAccount(s, t, sub) <==> !Seizes(cfg, s, r, w, sub)
  {
    match r
    case CreateUser(input) => CreateGuardIff(cfg, s, input, w, sub);
    case UpdateUser(id, input) => UpdateKeepsGuard(cfg, s, id, input, w, sub);
    case DeleteUser(id) => DeleteKeepsGuard(cfg, s, id, w, sub);
  }

  /** The row is gone, or is as it was but for external id and disabled state, and still not owned. */
  ghost predicate RowKept(cfg: Config, s: State, t: State, u: nat) {
    u in s.users && (u in t.users ==> SameIdentity(s.users[u], t.users[u]) && !Owns(cfg, t, u))
  }

  lemma HandleRowIff(cfg: Config, s: State, r: Request, w: World, u: nat)
    requires Fresh(cfg, s, w) && cfg.hasIdp && HeldBySubject(cfg) && u in s.users && !Owns(cfg, s, u)
    ensures RowKept(cfg, s, Handle(cfg, s, r, w), u) <==> !Rewrites(cfg, s, r, w, u)
  {
    var t := Handle(cfg, s, r, w);
    match r
    case CreateUser(input) => CreateRowIff(cfg, s, input, w, u);
    case UpdateUser(id, input) => UpdateTouches(cfg, s, id, input, w);
    case DeleteUser(id) =>
      DeleteTouches(cfg, s, id, w);
      if u in t.users && HasPlatformAdmin(s.roles, u) { DeleteKeepsAdmins(cfg, s, id, w, u); }
  }

  lemma HandleKeepsSubs(cfg: Config, s: State, r: Request, w: World)
    requires Fresh(cfg, s, w) && cfg.hasIdp && HeldBySubject(cfg) && UniqueSubs(s)
    ensures UniqueSubs(Handle(cfg, s, r, w))
  {
    match r
    case CreateUser(input) =>
      if Adopts(cfg, s, input, w) {
        AdoptionWrites(cfg, s, input, w);
      } else {
        CreateTouchesNothingElse(cfg, s, input, w, "");
      }
    case UpdateUser(id, input) => UpdateTouches(cfg, s, id, input, w);
    case DeleteUser(id) => DeleteTouches(cfg, s, id, w);
  }

  datatype Turn = Turn(request: Request, world: World)

  function Then(cfg: Config, s: State, turn: Turn): State {
    Handle(cfg, s, turn.request, turn.world)
  }

  /** The state after a run. */
  function After(cfg: Config, s: State, run: seq<Turn>): State
    decreases run
  {
    if run == [] then s else After(cfg, Then(cfg, s, run[0]), run[1..])
  }

  /** Every request of the run is given new keys. */
  ghost predicate FreshRun(cfg: Config, s: State, run: seq<Turn>)
    decreases run
  {
    run == [] || (Fresh(cfg, s, run[0].world) && FreshRun(cfg, Then(cfg, s, run[0]), run[1..]))
  }

  /** At every point of the run the account is out of the tenant's hands and as it was. */
  ghost predicate StaysGuarded(cfg: Config, s: State, run: seq<Turn>, sub: string)
    decreases run
  {
    Guarded(cfg, s, sub) &&
    (run == [] || (SameAccount(s, Then(cfg, s, run[0]), sub) && StaysGuarded(cfg, Then(cfg, s, run[0]), run[1..], sub)))
  }

  /** No request of the run takes hold of it. */
  ghost predicate NeverSeized(cfg: Config, s: State, run: seq<Turn>, sub: string)
    decreases run
  {
    run == [] ||
    (!Seizes(cfg, s, run[0].request, run[0].world, sub) && NeverSeized(cfg, Then(cfg, s, run[0]), run[1..], sub))
  }

  lemma {:induction false} GuardedIffNeverSeized(cfg: Config, s: State, run: seq<Turn>, sub: string)
    requires cfg.hasIdp && HeldBySubject(cfg) && UniqueSubs(s) && FreshRun(cfg, s, run) && Guarded(cfg, s, sub)
    ensures StaysGuarded(cfg, s, run, sub) <==> NeverSeized(cfg, s, run, sub)
    decreases run
  {
    if run != [] {
      var t := Then(cfg, s, run[0]);
      HandleGuardIff(cfg, s, run[0].request, run[0].world, sub);
      HandleKeepsSubs(cfg, s, run[0].request, run[0].world);
      if Guarded(cfg, t, sub) { GuardedIffNeverSeized(cfg, t, run[1..], sub); }
    }
  }

  lemma {:induction false} GuardedIsSame(cfg: Config, s: State, run: seq<Turn>, sub: string)
    requires StaysGuarded(cfg, s, run, sub)
    ensures SameAccount(s, After(cfg, s, run), sub)
    decreases run
  {
    if run != [] { GuardedIsSame(cfg, Then(cfg, s, run[0]), run[1..], sub); }
  }

  lemma UnownedIsGuarded(cfg: Config, s: State, u: nat)
    requires UniqueSubs(s) && u in s.users && !Owns(cfg, s, u)
    ensures Guarded(cfg, s, s.users[u].sub)
  {
    forall v | v in s.users && s.users[v].sub == s.users[u].sub
      ensures !Owns(cfg, s, v)
    {
      assert v == u;
    }
  }

  /** In every run of user requests with an identity provider, the account of a user the tenant does
      not own is never updated, disabled, deleted or made the tenant's, not even after its row is
      gone, exactly when no creation in the run takes hold of it. */
  lemma UnownedIsNeverChangedIff(cfg: Config, s: State, run: seq<Turn>, u: nat)
    requires cfg.hasIdp && HeldBySubject(cfg) && UniqueSubs(s) && FreshRun(cfg, s, run)
    requires u in s.users && !Owns(cfg, s, u)
    ensures StaysGuarded(cfg, s, run, s.users[u].sub) <==> NeverSeized(cfg, s, run, s.users[u].sub)
    ensures NeverSeized(cfg, s, run, s.users[u].sub) ==> SameAccount(s, After(cfg, s, run), s.users[u].sub)
  {
    UnownedIsGuarded(cfg, s, u);
    GuardedIffNeverSeized(cfg, s, run, s.users[u].sub);
    if NeverSeized(cfg, s, run, s.users[u].sub) { GuardedIsSame(cfg, s, run, s.users[u].sub); }
  }

  /** No lookup of a subject fails in the run. */
  ghost predicate SubjectsFound(run: seq<Turn>) {
    forall i :: 0 <= i < |run| ==> !run[i].world.subLookupFails
  }

  lemma {:induction false} FoundIsNeverSeized(cfg: Config, s: State, run: seq<Turn>, sub: string)
    requires SubjectsFound(run)
    ensures NeverSeized(cfg, s, run, sub)
    decreases run
  {
    if run != [] { FoundIsNeverSeized(cfg, Then(cfg, s, run[0]), run[1..], sub); }
  }

  /** In particular when no lookup of a subject fails. */
  lemma UnownedIsNeverChanged(cfg: Config, s: State, run: seq<Turn>, u: nat)
    requires cfg.hasIdp && HeldBySubject(cfg) && UniqueSubs(s) && FreshRun(cfg, s, run) && SubjectsFound(run)
    requires u in s.users && !Owns(cfg, s, u)
    ensures StaysGuarded(cfg, s, run, s.users[u].sub) && SameAccount(s, After(cfg, s, run), s.users[u].sub)
  {
    UnownedIsNeverChangedIff(cfg, s, run, u);
    FoundIsNeverSeized(cfg, s, run, s.users[u].sub);
  }

  /** At every point of the run until it is gone the row has kept its identity and is not owned. */
  ghost predicate RowStays(cfg: Config, s: State, run: seq<Turn>, u: nat)
    decreases run
  {
    run == [] || u !in s.users ||
    (RowKept(cfg, s, Then(cfg, s, run[0]), u) && RowStays(cfg, Then(cfg, s, run[0]), run[1..], u))
  }

  /** No request until then writes another identity over it. */
  ghost predicate NeverRewritten(cfg: Config, s: State, run: seq<Turn>, u: nat)
    decreases run
  {
    run == [] || u !in s.users ||
    (!Rewrites(cfg, s, run[0].request, run[0].world, u) && NeverRewritten(cfg, Then(cfg, s, run[0]), run[1..], u))
  }

  /** The row's half of the same. */
  lemma {:induction false} UnownedRowKeepsIdentityIff(cfg: Config, s: State, run: seq<Turn>, u: nat)
    requires cfg.hasIdp && HeldBySubject(cfg) && FreshRun(cfg, s, run) && (u in s.users ==> !Owns(cfg, s, u))
    ensures RowStays(cfg, s, run, u) <==> NeverRewritten(cfg, s, run, u)
    decreases run
  {
    if run != [] && u in s.users {
      var t := Then(cfg, s, run[0]);
      HandleRowIff(cfg, s, run[0].request, run[0].world, u);
      if RowKept(cfg, s, t, u) { UnownedRowKeepsIdentityIff(cfg, t, run[1..], u); }
    }
  }

  lemma {:induction false} FoundIsNeverRewritten(cfg: Config, s: State, run: seq<Turn>, u: nat)
    requires SubjectsFound(run)
    ensures NeverRewritten(cfg, s, run, u)
    decreases run
  {
    if run != [] { FoundIsNeverRewritten(cfg, Then(cfg, s, run[0]), run[1..], u); }
  }

  lemma {:induction false} StaysIsSame(cfg: Config, s: State, run: seq<Turn>, u: nat)
    requires cfg.hasIdp && HeldBySubject(cfg) && FreshRun(cfg, s, run) && u in s.users && RowStays(cfg, s, run, u)
    requires forall i :: 0 <= i < |run| ==> run[i].world.newId != u
    ensures u in After(cfg, s, run).users ==> SameIdentity(s.users[u], After(cfg, s, run).users[u])
    decreases run
  {
    if run != [] {
      var t := Then(cfg, s, run[0]);
      if u in t.users {
        StaysIsSame(cfg, t, run[1..], u);
      } else {
        GoneStaysGone(cfg, t, run[1..], u);
      }
    }
  }

  /** So when no lookup of a subject fails, the row keeps subject, e-mail address, display name and
      tenant as long as it is there. Row ids are never handed out twice. */
  lemma UnownedRowKeepsIdentity(cfg: Config, s: State, run: seq<Turn>, u: nat)
    requires cfg.hasIdp && HeldBySubject(cfg) && FreshRun(cfg, s, run) && SubjectsFound(run)
    requires u in s.users && !Owns(cfg, s, u)
    requires forall i :: 0 <= i < |run| ==> run[i].world.newId != u
    ensures u in After(cfg, s, run).users ==> SameIdentity(s.users[u], After(cfg, s, run).users[u])
  {
    FoundIsNeverRewritten(cfg, s, run, u);
    UnownedRowKeepsIdentityIff(cfg, s, run, u);
    StaysIsSame(cfg, s, run, u);
  }

  lemma HandleAddsNew(cfg: Config, s: State, r: Request, w: World, u: nat)
    requires Fresh(cfg, s, w) && cfg.hasIdp && HeldBySubject(cfg) && u !in s.users && w.newId != u
    ensures u !in Handle(cfg, s, r, w).users
  {
    match r
    case CreateUser(input) =>
      if Adopts(cfg, s, input, w) {
        AdoptionWrites(cfg, s, input, w);
      } else {
        CreateTouchesNothingElse(cfg, s, input, w, "");
      }
    case UpdateUser(id, input) => UpdateTouches(cfg, s, id, input, w);
    case DeleteUser(id) => DeleteTouches(cfg, s, id, w);
  }

  lemma {:induction false} GoneStaysGone(cfg: Config, s: State, run: seq<Turn>, u: nat)
    requires cfg.hasIdp && HeldBySubject(cfg) && FreshRun(cfg, s, run) && u !in s.users
    requires forall i :: 0 <= i < |run| ==> run[i].world.newId != u
    ensures u !in After(cfg, s, run).users
    decreases run
  {
    if run != [] {
      HandleAddsNew(cfg, s, run[0].request, run[0].world, u);
      GoneStaysGone(cfg, Then(cfg, s, run[0]), run[1..], u);
    }
  }

  // ---- e-mail addresses ----

  lemma LowerTwice(e: string)
    ensures Lower(Lower(e)) == Lower(e)
  {
  }

  lemma KeyIsLower(e: string)
    ensures Lower(Key(e)) == Key(e)
  {
    LowerTwice(TrimRight(TrimLeft(e)));
  }

  /** Writing one row keeps addresses unique exactly when no other row has its address. */
  lemma WriteKeepsEmailsIff(s: State, u: nat, row: User)
    requires UniqueEmails(s)
    ensures UniqueEmails(s.(users := s.users[u := row])) <==> !EmailTakenByOther(s, Lower(row.email), u)
  {
    var t := s.(users := s.users[u := row]);
    if EmailTakenByOther(s, Lower(row.email), u) {
      var o :| o in s.users && o != u && Lower(s.users[o].email) == Lower(row.email);
      assert o in t.users && u in t.users && Lower(t.users[o].email) == Lower(t.users[u].email);
    }
  }

  lemma SameUsersSameEmails(s: State, t: State)
    requires s.users == t.users
    ensures UniqueEmails(s) <==> UniqueEmails(t)
  {
  }

  /** The request writes an address that another row has in another case, because the lookup failed. */
  predicate Slips(cfg: Config, s: State, r: Request, w: World) {
    w.emailLookupFails &&
    match r
    case CreateUser(input) => CreateSlips(cfg, s, input, w)
    case UpdateUser(id, input) => UpdateSlips(cfg, s, id, input, w)
    case DeleteUser(_) => false
  }

  predicate CreateSlips(cfg: Config, s: State, input: UserInput, w: World) {
    Passes(cfg, s, input, w) &&
    var sub := Prepare(cfg, s, Stored(input), w).sub;
    Writes(cfg, s, Stored(input), w, sub) && EmailTakenByOther(s, Stored(input).email, UpsertId(s, w, sub))
  }

  predicate UpdateSlips(cfg: Config, s: State, id: nat, input: UserInput, w: World) {
    InScope(cfg, s, id) && Owns(cfg, s, id) && !w.lookupFails &&
    var i := UpdateInput(s.users[id], input);
    && ValidEmail(i.email) && i.email != s.users[id].email && EmailTakenByOther(s, i.email, id)
    && !w.writeFails && RowAllowed(s, id, UpdatedRow(s.users[id], i))
  }

  lemma CreateEmailsIff(cfg: Config, s: State, input: UserInput, w: World)
    requires UniqueEmails(s)
    ensures UniqueEmails(Create(cfg, s, input, w).0) <==> !Slips(cfg, s, CreateUser(input), w)
  {
    var i := Stored(input);
    var t, p := Create(cfg, s, input, w).0, Prepare(cfg, s, i, w);
    CreateIs(cfg, s, input, w);
    KeyIsLower(input.email);
    PrepareKeepsTables(cfg, s, i, w);
    if Passes(cfg, s, input, w) {
      SameUpsert(cfg, s, p.state, i, w, p.sub);
      FinishTouches(cfg, p.state, i, w, p.sub, p.created);
      if Writes(cfg, s, i, w, p.sub) {
        var u, row := UpsertId(s, w, p.sub), UpsertRow(cfg, s, i, w, p.sub);
        WriteKeepsEmailsIff(s, u, row);
        SameUsersSameEmails(t, s.(users := s.users[u := row]));
      } else {
        SameUsersSameEmails(s, t);
      }
    } else {
      SameUsersSameEmails(s, t);
    }
  }

  lemma OwnedEmailsIff(cfg: Config, s: State, id: nat, i: UserInput, w: World)
    requires UniqueEmails(s) && id in s.users && Lower(i.email) == i.email
    ensures UniqueEmails(UpdateOwned(cfg, s, id, i, w).0) <==>
      !(w.emailLookupFails && i.email != s.users[id].email && EmailTakenByOther(s, i.email, id)
        && !w.writeFails && RowAllowed(s, id, UpdatedRow(s.users[id], i)))
  {
    var user, t := s.users[id], UpdateOwned(cfg, s, id, i, w).0;
    var s1 := s.(users := s.users[id := UpdatedRow(user, i)]);
    UpdateAccountTouches(cfg, s1, user, i, w);
    WriteKeepsEmailsIff(s, id, UpdatedRow(user, i));
    SameUsersSameEmails(t, if t.users == s.users then s else s1);
  }

  lemma UpdateEmailsIff(cfg: Config, s: State, id: nat, input: UserInput, w: World)
    requires UniqueEmails(s)
    ensures UniqueEmails(Update(cfg, s, id, input, w).0) <==> !Slips(cfg, s, UpdateUser(id, input), w)
  {
    KeyIsLower(input.email);
    if InScope(cfg, s, id) {
      var i := UpdateInput(s.users[id], input);
      if Owns(cfg, s, id) {
        OwnedEmailsIff(cfg, s, id, i, w);
      } else {
        UpdateTouches(cfg, s, id, input, w);
      }
    }
  }

  /** With or without an identity provider, every request keeps e-mail addresses unique ignoring case
      exactly when it does not slip one past a failed lookup. */
  lemma HandleKeepsEmailsIff(cfg: Config, s: State, r: Request, w: World)
    requires UniqueEmails(s)
    ensures UniqueEmails(Handle(cfg, s, r, w)) <==> !Slips(cfg, s, r, w)
  {
    match r
    case CreateUser(input) => CreateEmailsIff(cfg, s, input, w);
    case UpdateUser(id, input) => UpdateEmailsIff(cfg, s, id, input, w);
    case DeleteUser(id) => DeleteTouches(cfg, s, id, w);
  }

  /** At every point of the run addresses are unique. */
  ghost predicate StaysUnique(cfg: Config, s: State, run: seq<Turn>)
    decreases run
  {
    UniqueEmails(s) && (run == [] || StaysUnique(cfg, Then(cfg, s, run[0]), run[1..]))
  }

  ghost predicate NeverSlips(cfg: Config, s: State, run: seq<Turn>)
    decreases run
  {
    run == [] || (!Slips(cfg, s, run[0].request, run[0].world) && NeverSlips(cfg, Then(cfg, s, run[0]), run[1..]))
  }

  lemma {:induction false} EmailsStayUniqueIff(cfg: Config, s: State, run: seq<Turn>)
    requires UniqueEmails(s)
    ensures StaysUnique(cfg, s, run) <==> NeverSlips(cfg, s, run)
    decreases run
  {
    if run != [] {
      HandleKeepsEmailsIff(cfg, s, run[0].request, run[0].world);
      if UniqueEmails(Then(cfg, s, run[0])) { EmailsStayUniqueIff(cfg, Then(cfg, s, run[0]), run[1..]); }
    }
  }

  /** In particular when no lookup of an address fails. */
  lemma {:induction false} EmailsStayUnique(cfg: Config, s: State, run: seq<Turn>)
    requires UniqueEmails(s) && forall i :: 0 <= i < |run| ==> !run[i].world.emailLookupFails
    ensures UniqueEmails(After(cfg, s, run))
    decreases run
  {
    if run != [] {
      HandleKeepsEmailsIff(cfg, s, run[0].request, run[0].world);
      EmailsStayUnique(cfg, Then(cfg, s, run[0]), run[1..]);
    }
  }

  // ---- no account without a row ----

  /** Creation reaches the point where it has made an account and its realm role. */
  predicate MakesAccount(cfg: Config, s: State, input: UserInput, w: World) {
    && CreateRefusal(cfg, s, input.(email := Key(input.email)), w).None?
    && cfg.hasIdp && !w.findFails && w.found == "" && !w.createFails && !w.realmRoleFails
  }

  lemma FinishAccount(cfg: Config, s: State, input: UserInput, w: World, sub: string, created: bool)
    ensures var t := Finish(cfg, s, input, w, sub, created).0;
      t.idp.Keys == if !Writes(cfg, s, input, w, sub) && created && !w.abortFails then s.idp.Keys - {sub} else s.idp.Keys
  {
  }

  /** What a creation prepares has no other new account, and its own only if it goes on with it. */
  lemma PrepareAccounts(cfg: Config, s: State, input: UserInput, w: World)
    requires Fresh(cfg, s, w) && cfg.hasIdp && !w.abortFails
    ensures var p := Prepare(cfg, s, input, w);
      && (p.Refused? ==> p.state.idp.Keys == s.idp.Keys)
      && (p.Ready? ==> p.state.idp.Keys == if p.created then s.idp.Keys + {p.sub} else s.idp.Keys)
      && (p.Ready? ==> (p.created <==> p.sub == w.newSub))
  {
  }

  /** When the compensating delete works, an account made by a creation is there afterwards exactly
      when its row is; so no outcome leaves an account without a row. */
  lemma NoAccountWithoutRow(cfg: Config, s: State, input: UserInput, w: World)
    requires Fresh(cfg, s, w) && cfg.hasIdp && !w.abortFails
    ensures var t := Create(cfg, s, input, w).0;
      && (w.newSub in t.idp <==> SubTaken(t, w.newSub))
      && (forall sub :: sub in t.idp && sub !in s.idp ==> sub == w.newSub)
  {
    var i := Stored(input);
    var t, p := Create(cfg, s, input, w).0, Prepare(cfg, s, i, w);
    CreateIs(cfg, s, input, w);
    PrepareKeepsTables(cfg, s, i, w);
    PrepareAccounts(cfg, s, i, w);
    if Passes(cfg, s, input, w) {
      FinishTouches(cfg, p.state, i, w, p.sub, p.created);
      FinishAccount(cfg, p.state, i, w, p.sub, p.created);
      FinishedSubs(s, t, UpsertId(p.state, w, p.sub), UpsertRow(cfg, p.state, i, w, p.sub), Writes(cfg, p.state, i, w, p.sub), w.newSub);
    }
  }

  lemma FinishedSubs(s: State, t: State, u: nat, row: User, writes: bool, sub: string)
    requires t.users == (if writes then s.users[u := row] else s.users) && !SubTaken(s, sub)
    ensures SubTaken(t, sub) <==> writes && row.sub == sub
  {
    if writes { assert u in t.users; }
  }

  /** Not every failed creation is undone: one that fails after the account was made leaves it behind
      exactly when the row had been written and the role could not be, or the row not read back. */
  lemma FailedCreationKeepsAccountIff(cfg: Config, s: State, input: UserInput, w: World)
    requires Fresh(cfg, s, w) && !w.abortFails && Create(cfg, s, input, w).1 == Failed
    ensures w.newSub in Create(cfg, s, input, w).0.idp <==>
      MakesAccount(cfg, s, input, w) && Writes(cfg, s, Stored(input), w, w.newSub) && (w.roleFails || w.reloadFails)
  {
    var i := Stored(input);
    var p := Prepare(cfg, s, i, w);
    CreateIs(cfg, s, input, w);
    if cfg.hasIdp { PrepareAccounts(cfg, s, i, w); }
    if Passes(cfg, s, input, w) && cfg.hasIdp {
      PrepareKeepsTables(cfg, s, i, w);
      SameUpsert(cfg, s, p.state, i, w, p.sub);
      FinishAccount(cfg, p.state, i, w, p.sub, p.created);
    }
  }

  // ---- what a handler promises ----

  /** Addresses stay unique unless the request slips one past a failed lookup. */
  ghost predicate KeepsAddresses(cfg: Config, s: State, r: Request, w: World, t: State) {
    UniqueEmails(s) ==> (UniqueEmails(t) <==> !Slips(cfg, s, r, w))
  }

  /** What the tenant does not own is kept, row by row and account by account, unless the request writes
      over the row or takes hold of the account. */
  ghost predicate KeepsUnowned(cfg: Config, s: State, r: Request, w: World, t: State) {
    Fresh(cfg, s, w) && cfg.hasIdp && HeldBySubject(cfg) && UniqueSubs(s) ==>
      && UniqueSubs(t)
      && (forall u :: u in s.users && !Owns(cfg, s, u) ==> (RowKept(cfg, s, t, u) <==> !Rewrites(cfg, s, r, w, u)))
      && (forall sub :: Guarded(cfg, s, sub) ==>
            (Guarded(cfg, t, sub) && SameAccount(s, t, sub) <==> !Seizes(cfg, s, r, w, sub)))
  }

  /** An account made by the request is there exactly when its row is. */
  ghost predicate NoStrayAccount(cfg: Config, s: State, w: World, t: State) {
    Fresh(cfg, s, w) && cfg.hasIdp && !w.abortFails ==>
      (w.newSub in t.idp <==> SubTaken(t, w.newSub)) && forall sub :: sub in t.idp && sub !in s.idp ==> sub == w.newSub
  }

  lemma HandlerPromises(cfg: Config, s: State, r: Request, w: World)
    ensures KeepsAddresses(cfg, s, r, w, Handle(cfg, s, r, w)) && KeepsUnowned(cfg, s, r, w, Handle(cfg, s, r, w))
  {
    if UniqueEmails(s) { HandleKeepsEmailsIff(cfg, s, r, w); }
    if Fresh(cfg, s, w) && cfg.hasIdp && HeldBySubject(cfg) && UniqueSubs(s) {
      HandleKeepsSubs(cfg, s, r, w);
      forall u | u in s.users && !Owns(cfg, s, u)
        ensures RowKept(cfg, s, Handle(cfg, s, r, w), u) <==> !Rewrites(cfg, s, r, w, u)
      {
        HandleRowIff(cfg, s, r, w, u);
      }
      forall sub | Guarded(cfg, s, sub)
        ensures var t := Handle(cfg, s, r, w); Guarded(cfg, t, sub) && SameAccount(s, t, sub) <==> !Seizes(cfg, s, r, w, sub)
      {
        HandleGuardIff(cfg, s, r, w, sub);
      }
    }
  }

  lemma CreatePromises(cfg: Config, s: State, input: UserInput, w: World)
    ensures NoStrayAccount(cfg, s, w, Create(cfg, s, input, w).0)
  {
    if Fresh(cfg, s, w) && cfg.hasIdp && !w.abortFails { NoAccountWithoutRow(cfg, s, input, w); }
  }
}
