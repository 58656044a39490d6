/**
 The migration of legacy users into PostgreSQL: two tables, the organization cache and two
 counters.  New organization ids come from a generator that never repeats an id in use.
 */
module Migration {
  import opened Wrappers

  datatype Org = Org(id: string, name: string)

  datatype Placement = Placement(department: string, team: string, officeLocation: string, disabled: bool)

  datatype User = User(username: string, email: string, hashedPassword: string, role: string, orgId: Option<string>,
                       companyName: string, placement: Placement, fullName: string)

  /** A legacy record: one the user model refuses, or its fields. */
  datatype Legacy = Invalid | Valid(email: string, hashedPassword: string, role: string, orgName: string,
                                    companyName: string, placement: Placement, fullName: string)

  datatype Item = Item(username: string, data: Legacy)

  const DEFAULT := "default"

  type Gen = seq<Org> -> string

  ghost predicate Fresh(gen: Gen) {
    forall orgs: seq<Org>, i :: 0 <= i < |orgs| ==> gen(orgs) != orgs[i].id
  }

  datatype State = State(orgs: seq<Org>, users: seq<User>, cache: map<string, string>, migrated: nat, skipped: nat)

  /** The first text unless it is empty. */
  function Or(a: string, b: string): string {
    if a != "" then a else b
  }

  /** The query for the first organization of a name. */
  function FirstOrg(orgs: seq<Org>, name: string): (r: Option<Org>)
    ensures r.Some? ==> r.value in orgs && r.value.name == name
    ensures r.None? ==> forall o :: o in orgs ==> o.name != name
  {
    if orgs == [] then None else if orgs[0].name == name then Some(orgs[0]) else FirstOrg(orgs[1..], name)
  }

  predicate HasUser(users: seq<User>, username: string) {
    exists u :: u in users && u.username == username
  }

  function OrgNameOf(data: Legacy): string
    requires data.Valid?
  {
    Or(data.orgName, DEFAULT)
  }

  function UserRow(item: Item, orgId: Option<string>): User
    requires item.data.Valid?
  {
    User(item.username, item.data.email, item.data.hashedPassword, item.data.role, orgId,
         Or(item.data.companyName, OrgNameOf(item.data)), item.data.placement, Or(item.data.fullName, item.username))
  }

  predicate Skips(st: State, item: Item) {
    item.data.Invalid? || HasUser(st.users, item.username)
  }

  /** The tables and the cache after resolving a non-default organization. */
  function WithOrg(st: State, name: string, gen: Gen): State {
    if name in st.cache then st
    else
      match FirstOrg(st.orgs, name)
      case Some(org) => st.(cache := st.cache[name := org.id])
      case None =>
        var org := Org(gen(st.orgs), name);
        st.(orgs := st.orgs + [org], cache := st.cache[name := org.id])
  }

  function Step(st: State, item: Item, gen: Gen): State {
    if Skips(st, item) then st.(skipped := st.skipped + 1)
    else
      var name := OrgNameOf(item.data);
      if name == DEFAULT then st.(users := st.users + [UserRow(item, None)], migrated := st.migrated + 1)
      else
        var st' := WithOrg(st, name, gen);
        st'.(users := st'.users + [UserRow(item, if name in st'.cache then Some(st'.cache[name]) else None)],
             migrated := st'.migrated + 1)
  }

  function RunAll(st: State, items: seq<Item>, gen: Gen): State {
    if items == [] then st else Step(RunAll(st, items[..|items| - 1], gen), items[|items| - 1], gen)
  }

  function Start(orgs: seq<Org>, users: seq<User>): State {
    State(orgs, users, map[], 0, 0)
  }

  /** The database session: rows added in the loop are visible to its later queries. */
  class Session {
    var orgs: seq<Org>
    var users: seq<User>

    constructor (orgs: seq<Org>, users: seq<User>)
      ensures this.orgs == orgs && this.users == users
    {
      this.orgs, this.users := orgs, users;
    }

    method Migrate(items: seq<Item>, gen: Gen) returns (migrated: nat, skipped: nat)
      modifies this
      ensures
        var r := RunAll(Start(old(orgs), old(users)), items, gen);
        orgs == r.orgs && users == r.users && migrated == r.migrated && skipped == r.skipped
    {
      hide DEFAULT;
      ghost var start := Start(orgs, users);
      var orgCache: map<string, string> := map[];
      migrated, skipped := 0, 0;
      for i := 0 to |items|
        invariant State(orgs, users, orgCache, migrated, skipped) == RunAll(start, items[..i], gen)
      {
        assert items[..i + 1][..i] == items[..i];
        var item := items[i];
        if item.data.Invalid? {
          skipped := skipped + 1;
          continue;
        }
        if HasUser(users, item.username) {
          skipped := skipped + 1;
          continue;
        }
        var orgId: Option<string> := None;
        var orgName := OrgNameOf(item.data);
        if orgName != DEFAULT {
          if orgName in orgCache {
            orgId := Some(orgCache[orgName]);
          } else {
            var found := FirstOrg(orgs, orgName);
            var org: Org;
            if found.Some? {
              org := found.value;
            } else {
              org := Org(gen(orgs), orgName);
              orgs := orgs + [org];
            }
            orgId := Some(org.id);
            orgCache := orgCache[orgName := org.id];
          }
        }
        users := users + [UserRow(item, orgId)];
        migrated := migrated + 1;
      }
      assert items[..|items|] == items;
    }
  }

  // ----- what every step keeps

  /** The first organization row of this name has this id. */
  ghost predicate HasOrg(orgs: seq<Org>, id: string, name: string) {
    exists k :: 0 <= k < |orgs| && orgs[k] == Org(id, name) && forall j :: 0 <= j < k ==> orgs[j].name != name
  }

  lemma {:induction false} FirstOrgAt(orgs: seq<Org>, name: string)
    requires FirstOrg(orgs, name).Some?
    ensures HasOrg(orgs, FirstOrg(orgs, name).value.id, name)
  {
    if orgs[0].name == name {
      assert orgs[0] == Org(orgs[0].id, name);
    } else {
      FirstOrgAt(orgs[1..], name);
      var id := FirstOrg(orgs, name).value.id;
      var k :| 0 <= k < |orgs| - 1 && orgs[1..][k] == Org(id, name)
        && forall j :: 0 <= j < k ==> orgs[1..][j].name != name;
      assert orgs[k + 1] == Org(id, name);
      assert forall j :: 1 <= j < k + 1 ==> orgs[j] == orgs[1..][j - 1];
    }
  }

  lemma HasOrgGrows(orgs: seq<Org>, more: seq<Org>, id: string, name: string)
    requires orgs <= more && HasOrg(orgs, id, name)
    ensures HasOrg(more, id, name)
  {
    var k :| 0 <= k < |orgs| && orgs[k] == Org(id, name) && forall j :: 0 <= j < k ==> orgs[j].name != name;
    assert more[k] == orgs[k] && forall j :: 0 <= j < k ==> more[j] == orgs[j];
  }

  ghost predicate CacheAgrees(st: State) {
    forall name :: name in st.cache ==> HasOrg(st.orgs, st.cache[name], name)
  }

  /** Rows added since the start: at the end, with names nobody had, each name once. */
  ghost predicate OrgsGrow(before: seq<Org>, after: seq<Org>) {
    && before <= after
    && (forall i, j :: 0 <= i < |before| <= j < |after| ==> before[i].name != after[j].name)
    && (forall i, j :: |before| <= i < j < |after| ==> after[i].name != after[j].name)
  }

  lemma WithOrgKeeps(before: seq<Org>, st: State, name: string, gen: Gen)
    requires CacheAgrees(st) && OrgsGrow(before, st.orgs)
    ensures
      var r := WithOrg(st, name, gen);
      && CacheAgrees(r) && OrgsGrow(before, r.orgs) && st.orgs <= r.orgs
      && name in r.cache && r.users == st.users && r.migrated == st.migrated && r.skipped == st.skipped
  {
    if name !in st.cache {
      var r := WithOrg(st, name, gen);
      var found := FirstOrg(st.orgs, name);
      if found.Some? {
        FirstOrgAt(st.orgs, name);
      } else {
        assert forall i :: 0 <= i < |st.orgs| ==> st.orgs[i] in st.orgs;
        assert r.orgs[|st.orgs|] == Org(r.cache[name], name);
        assert forall i :: 0 <= i < |st.orgs| ==> r.orgs[i] == st.orgs[i];
        forall n | n in st.cache ensures HasOrg(r.orgs, r.cache[n], n) {
          HasOrgGrows(st.orgs, r.orgs, st.cache[n], n);
        }
        assert forall i :: 0 <= i < |before| ==> before[i] == st.orgs[i];
      }
    }
  }

  lemma StepKeeps(before: seq<Org>, st: State, item: Item, gen: Gen)
    requires CacheAgrees(st) && OrgsGrow(before, st.orgs)
    ensures
      var r := Step(st, item, gen);
      && CacheAgrees(r) && OrgsGrow(before, r.orgs) && st.orgs <= r.orgs
      && r.migrated + r.skipped == st.migrated + st.skipped + 1
      && (if Skips(st, item) then r.users == st.users && r.orgs == st.orgs && r.migrated == st.migrated
          else |r.users| == |st.users| + 1 && r.users[..|st.users|] == st.users && r.migrated == st.migrated + 1
               && PointsHome(r.orgs, item, r.users[|st.users|]))
  {
    hide CacheAgrees, OrgsGrow, DEFAULT, FirstOrg, WithOrg, HasOrg, OrgNameOf, NamesOrg, CopiedFrom, UserRow;
    if !Skips(st, item) {
      OrgNameIs(item.data);
      var r := Step(st, item, gen);
      var orgId := if OrgNameOf(item.data) in r.cache then Some(r.cache[OrgNameOf(item.data)]) else None;
      UserRowCopies(item, orgId);
      UserRowCopies(item, None);
      var name := OrgNameOf(item.data);
      if name != DEFAULT {
        WithOrgKeeps(before, st, name, gen);
        var st' := WithOrg(st, name, gen);
        CachedIsHad(st', name);
        CacheIgnoresUsers(st', Step(st, item, gen));
      } else {
        CacheIgnoresUsers(st, Step(st, item, gen));
      }
    } else {
      CacheIgnoresUsers(st, Step(st, item, gen));
    }
  }

  lemma CachedIsHad(st: State, name: string)
    requires CacheAgrees(st) && name in st.cache
    ensures HasOrg(st.orgs, st.cache[name], name)
  {
  }

  lemma CacheIgnoresUsers(st: State, st': State)
    requires CacheAgrees(st) && st'.cache == st.cache && st'.orgs == st.orgs
    ensures CacheAgrees(st')
  {
  }

  /** The columns copied from a legacy record; a missing name or company is filled in. */
  ghost predicate CopiedFrom(row: User, username: string, data: Legacy)
    requires data.Valid?
  {
    && row.username == username
    && row.email == data.email
    && row.hashedPassword == data.hashedPassword
    && row.role == data.role
    && row.placement == data.placement
    && row.fullName == (if data.fullName == "" then username else data.fullName)
    && row.companyName == (if data.companyName != "" then data.companyName
                           else if data.orgName != "" then data.orgName else "default")
  }

  lemma UserRowCopies(item: Item, orgId: Option<string>)
    requires item.data.Valid?
    ensures CopiedFrom(UserRow(item, orgId), item.username, item.data) && UserRow(item, orgId).orgId == orgId
  {
  }

  /** The record names an organization of its own. */
  predicate NamesOrg(data: Legacy)
    requires data.Valid?
  {
    data.orgName != "" && data.orgName != "default"
  }

  lemma OrgNameIs(data: Legacy)
    requires data.Valid?
    ensures OrgNameOf(data) == DEFAULT <==> !NamesOrg(data)
    ensures NamesOrg(data) ==> OrgNameOf(data) == data.orgName
  {
  }

  /**
   The row written for a legacy user copies that record and points to the first organization row of
   the record's organization name, or to none.
   */
  ghost predicate PointsHome(orgs: seq<Org>, item: Item, row: User) {
    && item.data.Valid?
    && CopiedFrom(row, item.username, item.data)
    && if NamesOrg(item.data) then row.orgId.Some? && HasOrg(orgs, row.orgId.value, item.data.orgName)
       else row.orgId == None
  }

  // ----- whole migrations

  lemma RunKeeps(orgs: seq<Org>, users: seq<User>, items: seq<Item>, gen: Gen)
    ensures
      var r := RunAll(Start(orgs, users), items, gen);
      && CacheAgrees(r) && OrgsGrow(orgs, r.orgs)
      && r.migrated + r.skipped == |items|
  {
    hide OrgsGrow, Step;
    if items == [] {
      NothingGrows(orgs);
    } else {
      var init := items[..|items| - 1];
      RunKeeps(orgs, users, init, gen);
      StepKeeps(orgs, RunAll(Start(orgs, users), init, gen), items[|items| - 1], gen);
    }
  }

  lemma NothingGrows(orgs: seq<Org>)
    ensures OrgsGrow(orgs, orgs)
  {
  }

  /** How many rows carry an organization name. */
  function Named(orgs: seq<Org>, name: string): nat {
    if orgs == [] then 0 else Named(orgs[..|orgs| - 1], name) + if orgs[|orgs| - 1].name == name then 1 else 0
  }

  lemma {:induction false} GrownNames(before: seq<Org>, after: seq<Org>, name: string)
    requires OrgsGrow(before, after)
    ensures Named(after, name) == Named(before, name) || (Named(before, name) == 0 && Named(after, name) == 1)
    ensures Named(after, name) > Named(before, name) ==> exists j :: |before| <= j < |after| && after[j].name == name
  {
    if |after| == |before| {
      assert after == before;
    } else {
      var init := after[..|after| - 1];
      GrownNames(before, init, name);
      if after[|after| - 1].name == name {
        assert after[|after| - 1].name == name;
        NamedNone(before, name);
      } else if Named(init, name) > Named(before, name) {
        var j :| |before| <= j < |init| && init[j].name == name;
        assert after[j].name == name;
      }
    }
  }

  lemma {:induction false} NamedNone(orgs: seq<Org>, name: string)
    requires forall i :: 0 <= i < |orgs| ==> orgs[i].name != name
    ensures Named(orgs, name) == 0
  {
    if orgs != [] { NamedNone(orgs[..|orgs| - 1], name); }
  }

  /** The tables, the cache and the counters agree after any migration; no name gains more than one row. */
  lemma MigrationAgrees(orgs: seq<Org>, users: seq<User>, items: seq<Item>, gen: Gen, name: string)
    ensures
      var r := RunAll(Start(orgs, users), items, gen);
      && CacheAgrees(r)
      && r.migrated + r.skipped == |items|
      && orgs <= r.orgs
      && (Named(r.orgs, name) == Named(orgs, name) || (Named(orgs, name) == 0 && Named(r.orgs, name) == 1))
  {
    RunKeeps(orgs, users, items, gen);
    GrownNames(orgs, RunAll(Start(orgs, users), items, gen).orgs, name);
  }

  lemma HomeStaysHome(orgs: seq<Org>, more: seq<Org>, item: Item, row: User)
    requires orgs <= more && PointsHome(orgs, item, row)
    ensures PointsHome(more, item, row)
  {
    hide HasOrg, CopiedFrom;
    if NamesOrg(item.data) { HasOrgGrows(orgs, more, row.orgId.value, item.data.orgName); }
  }

  /** The items a migration takes: valid, and not already a user when their turn comes. */
  function Taken(st: State, items: seq<Item>, gen: Gen): seq<Item> {
    if items == [] then []
    else
      var init, last := items[..|items| - 1], items[|items| - 1];
      Taken(st, init, gen) + if Skips(RunAll(st, init, gen), last) then [] else [last]
  }

  /**
   The user table gains exactly one row per taken item, in order, and each points to the
   organization of its own name in the final table.
   */
  lemma {:induction false} MigratedUsersPointHome(orgs: seq<Org>, users: seq<User>, items: seq<Item>, gen: Gen)
    ensures
      var st := Start(orgs, users);
      var r, taken := RunAll(st, items, gen), Taken(st, items, gen);
      && |taken| == r.migrated && |r.users| == |users| + |taken| && users <= r.users
      && forall k :: 0 <= k < |taken| ==> PointsHome(r.orgs, taken[k], r.users[|users| + k])
  {
    hide Step, Skips, PointsHome;
    if items != [] {
      var init, last := items[..|items| - 1], items[|items| - 1];
      var st := Start(orgs, users);
      var mid, r := RunAll(st, init, gen), RunAll(st, items, gen);
      var taken := Taken(st, init, gen);
      MigratedUsersPointHome(orgs, users, init, gen);
      RunKeeps(orgs, users, init, gen);
      StepKeeps(orgs, mid, last, gen);
      forall k | 0 <= k < |taken| ensures PointsHome(r.orgs, taken[k], r.users[|users| + k]) {
        HomeStaysHome(mid.orgs, r.orgs, taken[k], mid.users[|users| + k]);
        assert r.users[|users| + k] == mid.users[|users| + k];
      }
    }
  }

  lemma TakenSnoc(st: State, items: seq<Item>, gen: Gen)
    requires items != []
    ensures
      var init, last := items[..|items| - 1], items[|items| - 1];
      Taken(st, items, gen) == Taken(st, init, gen) + if Skips(RunAll(st, init, gen), last) then [] else [last]
  {
    hide Skips, RunAll;
  }

  /** Some migrated record names this organization. */
  ghost predicate Wanted(taken: seq<Item>, name: string) {
    exists k :: 0 <= k < |taken| && taken[k].data.Valid? && NamesOrg(taken[k].data) && taken[k].data.orgName == name
  }

  lemma {:induction false} NamedSome(orgs: seq<Org>, k: nat)
    requires k < |orgs|
    ensures Named(orgs, orgs[k].name) > 0
  {
    if k < |orgs| - 1 { NamedSome(orgs[..|orgs| - 1], k); }
  }

  /** A step adds at most the organization its own record names. */
  lemma StepAddsWanted(st: State, item: Item, gen: Gen, name: string)
    ensures Named(Step(st, item, gen).orgs, name) > Named(st.orgs, name) ==>
              !Skips(st, item) && item.data.Valid? && NamesOrg(item.data) && item.data.orgName == name
  {
    hide DEFAULT, FirstOrg, HasUser;
    if !Skips(st, item) {
      OrgNameIs(item.data);
      assert forall org: Org :: (st.orgs + [org])[..|st.orgs|] == st.orgs;
    }
  }

  lemma {:induction false} NewNamesAreWanted(st: State, items: seq<Item>, gen: Gen, name: string)
    requires Named(RunAll(st, items, gen).orgs, name) > Named(st.orgs, name)
    ensures Wanted(Taken(st, items, gen), name)
  {
    hide Step, Skips, NamesOrg, Named;
    if items != [] {
      var init, last := items[..|items| - 1], items[|items| - 1];
      TakenSnoc(st, items, gen);
      StepAddsWanted(RunAll(st, init, gen), last, gen, name);
      var taken := Taken(st, items, gen);
      if Named(RunAll(st, init, gen).orgs, name) > Named(st.orgs, name) {
        NewNamesAreWanted(st, init, gen, name);
        var before := Taken(st, init, gen);
        var k :| 0 <= k < |before| && before[k].data.Valid? && NamesOrg(before[k].data)
          && before[k].data.orgName == name;
        assert taken[k] == before[k];
      } else {
        assert taken[|taken| - 1] == last;
      }
    }
  }

  /** A name gains an organization row exactly when it had none and a migrated record names it. */
  lemma OrgAddedIff(orgs: seq<Org>, users: seq<User>, items: seq<Item>, gen: Gen, name: string)
    ensures
      var st := Start(orgs, users);
      Named(RunAll(st, items, gen).orgs, name) > Named(orgs, name) <==>
      Named(orgs, name) == 0 && Wanted(Taken(st, items, gen), name)
  {
    hide RunAll, Taken, Named, NamesOrg, CopiedFrom;
    var st := Start(orgs, users);
    var r, taken := RunAll(st, items, gen), Taken(st, items, gen);
    MigrationAgrees(orgs, users, items, gen, name);
    MigratedUsersPointHome(orgs, users, items, gen);
    if Named(r.orgs, name) > Named(orgs, name) { NewNamesAreWanted(st, items, gen, name); }
    if Wanted(taken, name) {
      var k :| 0 <= k < |taken| && taken[k].data.Valid? && NamesOrg(taken[k].data) && taken[k].data.orgName == name;
      var row := r.users[|users| + k];
      assert PointsHome(r.orgs, taken[k], row);
      var j :| 0 <= j < |r.orgs| && r.orgs[j] == Org(row.orgId.value, name);
      NamedSome(r.orgs, j);
    }
  }

  lemma {:induction false} UsersComeFromItems(st: State, items: seq<Item>, gen: Gen, username: string)
    ensures HasUser(RunAll(st, items, gen).users, username) ==>
              HasUser(st.users, username) || exists j :: 0 <= j < |items| && items[j].username == username
  {
    if items != [] {
      hide DEFAULT, FirstOrg;
      var init, last := items[..|items| - 1], items[|items| - 1];
      UsersComeFromItems(st, init, gen, username);
      assert items[|items| - 1].username == last.username;
      if exists j :: 0 <= j < |init| && init[j].username == username {
        var j :| 0 <= j < |init| && init[j].username == username;
        assert items[j].username == username;
      }
    }
  }

  /** With one record per username, a record is skipped exactly when it is invalid or its user was there before. */
  lemma SkippedIff(orgs: seq<Org>, users: seq<User>, items: seq<Item>, gen: Gen, i: nat)
    requires i < |items| && forall j, k :: 0 <= j < k < |items| ==> items[j].username != items[k].username
    ensures Skips(RunAll(Start(orgs, users), items[..i], gen), items[i]) <==>
            items[i].data.Invalid? || HasUser(users, items[i].username)
  {
    hide Step;
    UsersComeFromItems(Start(orgs, users), items[..i], gen, items[i].username);
    MigratedUsersPointHome(orgs, users, items[..i], gen);
    var r := RunAll(Start(orgs, users), items[..i], gen);
    if HasUser(users, items[i].username) {
      var u :| u in users && u.username == items[i].username;
      var k :| 0 <= k < |users| && users[k] == u;
      assert r.users[k] == u;
    }
  }

  /** Every legacy user is, at the end, either refused by the model or in the user table. */
  lemma {:induction false} EveryoneIsSettled(orgs: seq<Org>, users: seq<User>, items: seq<Item>, gen: Gen, i: nat)
    requires i < |items|
    ensures Skips(RunAll(Start(orgs, users), items, gen), items[i])
  {
    var init, last := items[..|items| - 1], items[|items| - 1];
    var st := Start(orgs, users);
    var mid, r := RunAll(st, init, gen), RunAll(st, items, gen);
    RunKeeps(orgs, users, init, gen);
    StepKeeps(orgs, mid, last, gen);
    if i < |init| {
      EveryoneIsSettled(orgs, users, init, gen, i);
      UsersStay(mid, r, items[i]);
    } else if !Skips(mid, last) {
      assert r.users[|mid.users|] in r.users && r.users[|mid.users|].username == last.username;
    } else {
      UsersStay(mid, r, last);
    }
  }

  lemma UsersStay(mid: State, r: State, item: Item)
    requires mid.users <= r.users && Skips(mid, item)
    ensures Skips(r, item)
  {
    if item.data.Valid? {
      var u :| u in mid.users && u.username == item.username;
      var k :| 0 <= k < |mid.users| && mid.users[k] == u;
      assert r.users[k] == u && u in r.users;
    }
  }

  lemma {:induction false} SettledRunIsIdle(st: State, items: seq<Item>, gen: Gen)
    requires forall i :: 0 <= i < |items| ==> Skips(st, items[i])
    ensures RunAll(st, items, gen) == st.(skipped := st.skipped + |items|)
  {
    hide Skips;
    if items != [] {
      var init, last := items[..|items| - 1], items[|items| - 1];
      SettledRunIsIdle(st, init, gen);
      var mid := RunAll(st, init, gen);
      SkippingIgnoresCounters(st, mid, last);
    }
  }

  lemma SkippingIgnoresCounters(st: State, mid: State, item: Item)
    requires mid.users == st.users
    ensures Skips(mid, item) == Skips(st, item)
  {
  }

  /** Running the same migration again migrates nobody, adds no organization and changes no row. */
  lemma SecondRunIsIdle(orgs: seq<Org>, users: seq<User>, items: seq<Item>, gen: Gen)
    ensures
      var r := RunAll(Start(orgs, users), items, gen);
      RunAll(Start(r.orgs, r.users), items, gen) == State(r.orgs, r.users, map[], 0, |items|)
  {
    var r := RunAll(Start(orgs, users), items, gen);
    forall i | 0 <= i < |items| ensures Skips(Start(r.orgs, r.users), items[i]) {
      EveryoneIsSettled(orgs, users, items, gen, i);
    }
    SettledRunIsIdle(Start(r.orgs, r.users), items, gen);
  }

  ghost predicate DistinctIds(orgs: seq<Org>) {
    forall i, j :: 0 <= i < j < |orgs| ==> orgs[i].id != orgs[j].id
  }

  /** With a fresh generator ids stay distinct, so an organization id names one organization. */
  lemma {:induction false} IdsStayDistinct(orgs: seq<Org>, users: seq<User>, items: seq<Item>, gen: Gen)
    requires Fresh(gen) && DistinctIds(orgs)
    ensures DistinctIds(RunAll(Start(orgs, users), items, gen).orgs)
  {
    hide FirstOrg, Skips, DEFAULT;
    if items != [] { IdsStayDistinct(orgs, users, items[..|items| - 1], gen); }
  }
}
