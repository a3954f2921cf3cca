/** The requests at which the directory does not keep what it keeps otherwise. */
module ScimFailures {
  import opened Basics
  import opened Scim
  import opened ScimSafety
  import opened Text

  function Setup(hasIdp: bool): Config {
    Config("t", "w", {"w"}, "business_user", hasIdp, None, None, false, false)
  }

  /** Every call works; the identity provider knows `found`. */
  function Calm(found: string): World {
    World(1, "new", found, false, false, false, false, false, false, false, false, false, false, false, false, false, false,
          false, false, false, false, false)
  }

  const ANNA := UserInput("a@x", "Anna", "", true)

  lemma AnnaIsStored()
    ensures Stored(ANNA) == ANNA && Key("a@x") == "a@x" && ValidEmail("a@x")
  {
    assert TrimLeft("a@x") == "a@x" && TrimRight("a@x") == "a@x";
    assert Lower("a@x") == "a@x";
    assert "a@x"[1] == '@';
  }

  // ---- two rows with one address ----

  /** A row made elsewhere, with a capital in its address. */
  function OneRow(): State {
    State(map[0 := User("k", "A@x", "Anna", "", None, false, false)], {}, map[])
  }

  /** Creating a@x while the lookup of the address fails leaves A@x and a@x side by side: the table's
      own constraint compares letter for letter. */
  lemma AddressSlipsIn(w: World)
    requires w == Calm("").(emailLookupFails := true)
    ensures UniqueEmails(OneRow()) && !UniqueEmails(Create(Setup(false), OneRow(), ANNA, w).0)
  {
    var cfg, s := Setup(false), OneRow();
    AnnaIsStored();
    assert Lower("A@x") == "a@x";
    assert Slips(cfg, s, CreateUser(ANNA), w) by { SyntheticWrites(w); }
    HandleKeepsEmailsIff(cfg, s, CreateUser(ANNA), w);
  }

  lemma SyntheticWrites(w: World)
    requires w == Calm("").(emailLookupFails := true)
    ensures Passes(Setup(false), OneRow(), ANNA, w)
    ensures var sub := SYNTHETIC + "a@x";
      Prepare(Setup(false), OneRow(), ANNA, w).sub == sub && UpsertId(OneRow(), w, sub) == 1 &&
      Writes(Setup(false), OneRow(), ANNA, w, sub)
    ensures EmailTakenByOther(OneRow(), "a@x", 1)
  {
    AnnaIsStored();
    var s, sub := OneRow(), SYNTHETIC + "a@x";
    assert |sub| > 1;
    assert !SubTaken(s, sub);
    assert Lower("A@x") == "a@x";
    assert s.users[0].email == "A@x" && "A@x"[0] != "a@x"[0];
    assert 0 in s.users && Lower(s.users[0].email) == "a@x";
  }

  // ---- an account taken over ----

  /** A user of no tenant, whose account the identity provider knows under another address. */
  function Foreign(): State {
    State(map[0 := User("k", "old@y", "Old", "", None, false, false)], {}, map["k" := Account("old@y", "Old", true, {})])
  }

  /** Creating a user while the lookup of the subject found fails writes over the row of that subject
      and makes it the tenant's own. */
  lemma AccountIsTakenOver(w: World)
    requires w == Calm("k").(subLookupFails := true)
    ensures var t := Create(Setup(true), Foreign(), ANNA, w).0;
      && Fresh(Setup(true), Foreign(), w) && !Owns(Setup(true), Foreign(), 0)
      && 0 in t.users && t.users[0].email == "a@x" && Owns(Setup(true), t, 0)
      && Seizes(Setup(true), Foreign(), CreateUser(ANNA), w, "k") && Rewrites(Setup(true), Foreign(), CreateUser(ANNA), w, 0)
  {
    var cfg, s := Setup(true), Foreign();
    AnnaIsStored();
    ForeignIsFresh(w);
    ForeignAdopts(w);
    AdoptionWrites(cfg, s, ANNA, w);
    TakenOwnedIff(cfg, s, ANNA, w);
    assert "business_user"[0] != PLATFORM_ADMIN[0];
  }

  lemma ForeignIsFresh(w: World)
    requires w == Calm("k").(subLookupFails := true)
    ensures Fresh(Setup(true), Foreign(), w) && SubTaken(Foreign(), "k") && UpsertId(Foreign(), w, "k") == 0
  {
    var s := Foreign();
    assert 0 in s.users && s.users[0].sub == "k";
    assert |"new"| == 3 && |"k"| == 1;
  }

  lemma ForeignAdopts(w: World)
    requires w == Calm("k").(subLookupFails := true)
    ensures Adopts(Setup(true), Foreign(), ANNA, w) && TakenWrites(Setup(true), Foreign(), ANNA, w)
  {
    AnnaIsStored();
    ForeignIsFresh(w);
    var s := Foreign();
    assert Lower("old@y")[0] == 'o' && "a@x"[0] == 'a';
    assert |"old@y"| == 5 && |Lower("old@y")| == 5 && |"a@x"| == 3;
    assert !EmailTaken(s, "a@x");
    assert Lower("a@x") == "a@x";
  }

  // ---- a failed creation that is not undone ----

  /** A role that cannot be inserted leaves the account and the row a creation made, though the request
      failed. */
  lemma FailedCreationLeavesAccount(w: World)
    requires w == Calm("").(roleFails := true)
    ensures var s := State(map[], {}, map[]); var r := Create(Setup(true), s, ANNA, w);
      r.1 == Failed && "new" in r.0.idp && SubTaken(r.0, "new")
  {
    AnnaIsStored();
    var cfg, s := Setup(true), State(map[], {}, map[]);
    assert !SubTaken(s, "new");
    assert |"new"| == 3;
    assert Lower("a@x") == "a@x";
    NoAccountWithoutRow(cfg, s, ANNA, w);
    var p := Prepare(cfg, s, ANNA, w);
    assert p.Ready? && p.sub == "new" && p.created && p.state.users == s.users;
    SameUpsert(cfg, s, p.state, ANNA, w, "new");
    assert Writes(cfg, s, ANNA, w, "new");
    CreateIs(cfg, s, ANNA, w);
  }
}
