/**
 The two collections of the cloud backend and the push endpoints that belong to them: users
 with their apps and linked communicators, devices with their linked users. Modelled are the
 handlers setAppToken, linkUserDevice and unlinkUserDevice, the insertions of newUser and
 newDevice, and the fan-out of sendPushNotifications.
 */
module CloudRegistry {
  import opened Options
  import opened Sequences

  /** An entry of users.apps; endpoints (ARNs) are opaque numbers. */
  datatype App = App(appId: string, tokenPush: string, endpoint: nat)
  datatype User = User(apps: seq<App>, comunicadores: seq<string>)

  datatype Rol = Master | Habitual
  datatype Link = Link(email: string, rol: Rol)
  datatype Device = Device(usuarios: seq<Link>, clavem: string, claveh: string)

  /**
   The users by email and the devices by comId, both unique keys, and the live endpoints of
   the notification service with the token each was created for.
   */
  datatype State = State(users: map<string, User>, devices: map<string, Device>, live: map<nat, string>)

  datatype Status = Ok | Conflict

  /** passwordUtilities.isPasswordCorrect, as an unknown relation of password and stored hash. */
  type PasswordCheck = (string, string) -> bool

  // ---------------------------------------------------------------- database operations

  predicate HasApp(u: User, appId: string) {
    exists a :: a in u.apps && a.appId == appId
  }

  function AppKey(a: App): string { a.appId }
  function LinkKey(l: Link): string { l.email }
  function ComKey(comId: string): string { comId }

  /** The first entry with the given id; the positional update replaces it. */
  function IndexOfApp(apps: seq<App>, appId: string): (i: nat)
    ensures i <= |apps|
    ensures i < |apps| ==> apps[i].appId == appId
    ensures forall k :: 0 <= k < i ==> apps[k].appId != appId
  {
    if apps == [] || apps[0].appId == appId then 0 else 1 + IndexOfApp(apps[1..], appId)
  }

  function PushApp(users: map<string, User>, email: string, app: App): map<string, User> {
    if email in users then users[email := users[email].(apps := users[email].apps + [app])] else users
  }

  predicate IsLinked(d: Device, email: string) {
    exists l :: l in d.usuarios && l.email == email
  }

  // ---------------------------------------------------------------- the handlers

  /** newUser inserts a record unless the email is taken. */
  function NewUser(s: State, email: string): State {
    if email in s.users then s else s.(users := s.users[email := User([], [])])
  }

  function NewDevice(s: State, comId: string): State {
    if comId in s.devices then s else s.(devices := s.devices[comId := Device([], "", "")])
  }

  /** The role a link request obtains, if it is admitted. */
  function RoleFor(d: Device, clave: Option<string>, check: PasswordCheck): Option<Rol> {
    if d.clavem != "" && d.claveh != "" then
      if clave.None? || clave.value == "" then None
      else if check(clave.value, d.clavem) then Some(Master)
      else if check(clave.value, d.claveh) then Some(Habitual)
      else None
    else Some(Master)
  }

  function LinkUser(s: State, comId: string, email: string, clave: Option<string>, check: PasswordCheck)
    : (State, Status)
  {
    if comId !in s.devices || email !in s.users || IsLinked(s.devices[comId], email) then (s, Conflict)
    else
      match RoleFor(s.devices[comId], clave, check)
      case None => (s, Conflict)
      case Some(rol) =>
        var d, u := s.devices[comId], s.users[email];
        (s.(devices := s.devices[comId := d.(usuarios := d.usuarios + [Link(email, rol)])],
            users := s.users[email := u.(comunicadores := u.comunicadores + [comId])]), Ok)
  }

  function UnlinkUser(s: State, comId: string, email: string): (State, Status) {
    if comId !in s.devices || email !in s.users || !IsLinked(s.devices[comId], email) then (s, Conflict)
    else
      var d, u := s.devices[comId], s.users[email];
      (s.(devices := s.devices[comId := d.(usuarios := Without(d.usuarios, LinkKey, email))],
          users := s.users[email := u.(comunicadores := Without(u.comunicadores, ComKey, comId))]), Ok)
  }

  /** A user that has the app, if any; unique in every consistent state. */
  ghost function Owner(s: State, appId: string): Option<string> {
    if e :| e in s.users && HasApp(s.users[e], appId) then Some(e) else None
  }

  /** The first users returned by the query of setAppToken, and by the update that repeats it. */
  datatype Found = Nobody | Found(first: string, updated: string)

  predicate QueriesReturn(s: State, appId: string, found: Found) {
    match found
    case Nobody => forall e :: e in s.users ==> !HasApp(s.users[e], appId)
    case Found(first, updated) =>
      && first in s.users && HasApp(s.users[first], appId)
      && updated in s.users && HasApp(s.users[updated], appId)
  }

  /** setAppToken; `arn` is the endpoint the notification service would create. */
  function SetTokenFound(s: State, found: Found, appId: string, token: string, email: string, arn: nat): State
    requires QueriesReturn(s, appId, found)
  {
    match found
    case Nobody =>
      s.(users := PushApp(s.users, email, App(appId, token, arn)), live := s.live[arn := token])
    case Found(owner, updated) =>
      var apps := s.users[owner].apps;
      var app := apps[IndexOfApp(apps, appId)];
      if owner == email then
        if app.tokenPush == token then s
        else
          var stored := s.users[updated].apps;
          var entries := stored[IndexOfApp(stored, appId) := App(appId, token, arn)];
          s.(users := s.users[updated := s.users[updated].(apps := entries)],
             live := (s.live - {app.endpoint})[arn := token])
      else
        var pulled := s.users[owner := s.users[owner].(apps := Without(apps, AppKey, appId))];
        if app.tokenPush == token then
          s.(users := PushApp(pulled, email, app))
        else  // the entry moves with the new endpoint but keeps its old token
          s.(users := PushApp(pulled, email, app.(endpoint := arn)),
             live := (s.live - {app.endpoint})[arn := token])
  }

  /** setAppToken, for one user that has the app, if there is any. */
  ghost function SetToken(s: State, appId: string, token: string, email: string, arn: nat): State {
    match Owner(s, appId)
    case None => SetTokenFound(s, Nobody, appId, token, email, arn)
    case Some(owner) => SetTokenFound(s, Found(owner, owner), appId, token, email, arn)
  }

  // ---------------------------------------------------------------- consistency

  predicate Owns(s: State, email: string, a: App) {
    email in s.users && a in s.users[email].apps
  }

  /** An appId is registered at most once, over all users. */
  ghost predicate AppsUnique(s: State) {
    && (forall e, e', a, a' :: Owns(s, e, a) && Owns(s, e', a') && a.appId == a'.appId ==>
          e == e' && a == a')
    && (forall e :: e in s.users ==> NoDuplicates(s.users[e].apps))
  }

  /** The live endpoints are exactly the stored ones, and no two apps share one. */
  ghost predicate EndpointsMatch(s: State) {
    && (forall e, e', a, a' :: Owns(s, e, a) && Owns(s, e', a') && a.endpoint == a'.endpoint ==>
          e == e' && a == a')
    && (forall e, a :: Owns(s, e, a) ==> a.endpoint in s.live)
    && (forall p :: p in s.live ==> exists e, a :: Owns(s, e, a) && a.endpoint == p)
  }

  predicate ListedOnUser(s: State, email: string, comId: string) {
    email in s.users && comId in s.users[email].comunicadores
  }

  predicate ListedOnDevice(s: State, email: string, comId: string) {
    comId in s.devices && IsLinked(s.devices[comId], email)
  }

  /** A user is listed on a device iff the device is listed on the user, each at most once. */
  ghost predicate LinksSymmetric(s: State) {
    && (forall e, c :: ListedOnUser(s, e, c) <==> ListedOnDevice(s, e, c))
    && (forall e :: e in s.users ==> NoDuplicates(s.users[e].comunicadores))
    && (forall c :: c in s.devices ==> NoDuplicates(Keys(s.devices[c].usuarios, LinkKey)))
  }

  ghost predicate Inv(s: State) {
    AppsUnique(s) && EndpointsMatch(s) && LinksSymmetric(s)
  }

  // ---------------------------------------------------------------- setAppToken

  lemma OwnerIsUnique(s: State, appId: string, e: string)
    requires AppsUnique(s) && e in s.users && HasApp(s.users[e], appId)
    ensures Owner(s, appId) == Some(e)
  {
    var o := Owner(s, appId).value;
    var a :| a in s.users[e].apps && a.appId == appId;
    var b :| b in s.users[o].apps && b.appId == appId;
    assert Owns(s, e, a) && Owns(s, o, b);
  }

  /** While apps are unique it does not matter which matching users the queries return. */
  lemma AnyMatchWillDo(s: State, found: Found, appId: string, token: string, email: string, arn: nat)
    requires AppsUnique(s) && QueriesReturn(s, appId, found)
    ensures SetTokenFound(s, found, appId, token, email, arn) == SetToken(s, appId, token, email, arn)
  {
    if found.Found? {
      OwnerIsUnique(s, appId, found.first);
      OwnerIsUnique(s, appId, found.updated);
    }
  }

  /** The entry for appId, wherever it was, has become `entry` under `email`; all else is as before. */
  ghost predicate EntryReplaced(s: State, t: State, appId: string, email: string, entry: App) {
    && entry.appId == appId
    && forall e, a :: Owns(t, e, a) <==> (Owns(s, e, a) && a.appId != appId) || (e == email && a == entry)
  }

  /** p is the endpoint of the entry for appId. */
  ghost predicate Serves(s: State, appId: string, p: nat) {
    exists e, a :: Owns(s, e, a) && a.appId == appId && a.endpoint == p
  }

  /** The live endpoints lose that of the old entry and gain that of the new one. */
  ghost predicate EndpointMoved(s: State, t: State, appId: string, entry: App) {
    && (entry.endpoint !in s.live || Serves(s, appId, entry.endpoint))
    && forall p :: p in t.live <==> p == entry.endpoint || (p in s.live && !Serves(s, appId, p))
  }

  lemma ServesOnlyOwn(s: State, owner: string, app: App)
    requires AppsUnique(s) && Owns(s, owner, app)
    ensures forall p :: Serves(s, app.appId, p) <==> p == app.endpoint
  {
  }

  lemma ReplacementIsUnique(s: State, t: State, appId: string, email: string, entry: App)
    requires AppsUnique(s) && EndpointsMatch(s)
    requires EntryReplaced(s, t, appId, email, entry) && EndpointMoved(s, t, appId, entry)
    ensures forall e, a :: Owns(t, e, a) && a != entry ==> a.endpoint != entry.endpoint && a.endpoint in t.live
  {
    forall e, a | Owns(t, e, a) && a != entry ensures a.endpoint != entry.endpoint && a.endpoint in t.live {
      assert Owns(s, e, a);
    }
  }

  lemma ReplacementIsConsistent(s: State, t: State, appId: string, email: string, entry: App)
    requires AppsUnique(s) && EndpointsMatch(s)
    requires EntryReplaced(s, t, appId, email, entry) && EndpointMoved(s, t, appId, entry)
    requires forall e :: e in t.users ==> NoDuplicates(t.users[e].apps)
    ensures AppsUnique(t) && EndpointsMatch(t)
  {
    ReplacementIsUnique(s, t, appId, email, entry);
    assert Owns(t, email, entry);
    ReplacementIsStored(s, t, appId, email, entry);
  }

  lemma ReplacementIsStored(s: State, t: State, appId: string, email: string, entry: App)
    requires EndpointsMatch(s)
    requires EntryReplaced(s, t, appId, email, entry) && EndpointMoved(s, t, appId, entry)
    ensures forall p :: p in t.live ==> exists e, a :: Owns(t, e, a) && a.endpoint == p
  {
    assert Owns(t, email, entry);
    forall p | p in t.live ensures exists e, a :: Owns(t, e, a) && a.endpoint == p {
      if p != entry.endpoint {
        var e, a :| Owns(s, e, a) && a.endpoint == p;
        assert Owns(t, e, a);
      }
    }
  }

  lemma SetTokenKeepsInv(s: State, appId: string, token: string, email: string, arn: nat)
    requires Inv(s) && email in s.users && arn !in s.live
    ensures Inv(SetToken(s, appId, token, email, arn))
  {
    SetTokenLeavesLinks(s, appId, token, email, arn);
    match Owner(s, appId)
    case None =>
      NewEntry(s, appId, token, email, arn);
    case Some(owner) =>
      if owner == email {
        RefreshedEntry(s, appId, token, email, arn);
      } else {
        MovedEntry(s, appId, token, email, arn);
      }
  }

  lemma SetTokenLeavesLinks(s: State, appId: string, token: string, email: string, arn: nat)
    requires LinksSymmetric(s)
    ensures LinksSymmetric(SetToken(s, appId, token, email, arn))
  {
    var t := SetToken(s, appId, token, email, arn);
    match Owner(s, appId) {
      case None => PushKeepsLinks(s.users, email, App(appId, token, arn));
      case Some(owner) =>
        var apps := s.users[owner].apps;
        var app := apps[IndexOfApp(apps, appId)];
        if owner != email {
          var pulled := s.users[owner := s.users[owner].(apps := Without(apps, AppKey, appId))];
          PushKeepsLinks(pulled, email, if app.tokenPush == token then app else app.(endpoint := arn));
        }
    }
    LinksUntouched(s, t);
  }

  lemma PushKeepsLinks(users: map<string, User>, email: string, app: App)
    ensures var pushed := PushApp(users, email, app);
            && pushed.Keys == users.Keys
            && forall e :: e in users ==> pushed[e].comunicadores == users[e].comunicadores
  {
  }

  lemma NewEntry(s: State, appId: string, token: string, email: string, arn: nat)
    requires Inv(s) && email in s.users && arn !in s.live && Owner(s, appId).None?
    ensures AppsUnique(SetToken(s, appId, token, email, arn))
    ensures EndpointsMatch(SetToken(s, appId, token, email, arn))
  {
    var t := SetToken(s, appId, token, email, arn);
    var entry := App(appId, token, arn);
    forall e, a | Owns(s, e, a) ensures a.appId != appId {
      if a.appId == appId {
        OwnerIsUnique(s, appId, e);
      }
    }
    assert EntryReplaced(s, t, appId, email, entry);
    assert EndpointMoved(s, t, appId, entry);
    ReplacementIsConsistent(s, t, appId, email, entry);
  }

  lemma RefreshedEntry(s: State, appId: string, token: string, email: string, arn: nat)
    requires Inv(s) && email in s.users && arn !in s.live && Owner(s, appId) == Some(email)
    ensures AppsUnique(SetToken(s, appId, token, email, arn))
    ensures EndpointsMatch(SetToken(s, appId, token, email, arn))
  {
    var t := SetToken(s, appId, token, email, arn);
    var apps := s.users[email].apps;
    var i := IndexOfApp(apps, appId);
    assert Owns(s, email, apps[i]);
    if apps[i].tokenPush != token {
      var entry := App(appId, token, arn);
      SameUserReplaced(s, t, i, email, entry);
      ServesOnlyOwn(s, email, apps[i]);
      ReplacementIsConsistent(s, t, appId, email, entry);
      }
  }

  lemma SameUserReplaced(s: State, t: State, i: nat, email: string, entry: App)
    requires AppsUnique(s) && email in s.users && i < |s.users[email].apps|
    requires entry.appId == s.users[email].apps[i].appId
    requires t.users == s.users[email := s.users[email].(apps := s.users[email].apps[i := entry])]
    ensures EntryReplaced(s, t, entry.appId, email, entry)
    ensures forall e :: e in t.users ==> NoDuplicates(t.users[e].apps)
  {
    var apps := s.users[email].apps;
    assert Owns(s, email, apps[i]);
    forall a, a' | a in apps && a' in apps && a.appId == a'.appId ensures a == a' {
      assert Owns(s, email, a) && Owns(s, email, a');
    }
    ReplacedApps(apps, i, entry);
    forall e, a ensures Owns(t, e, a) <==> (Owns(s, e, a) && a.appId != entry.appId) || (e == email && a == entry) {
      if e != email && Owns(s, e, a) {
        assert a.appId != apps[i].appId;
      }
    }
  }

  lemma ReplacedApps(apps: seq<App>, i: nat, entry: App)
    requires i < |apps| && entry.appId == apps[i].appId && NoDuplicates(apps)
    requires forall a, a' :: a in apps && a' in apps && a.appId == a'.appId ==> a == a'
    ensures NoDuplicates(apps[i := entry])
    ensures forall a :: a in apps[i := entry] <==> (a in apps && a.appId != entry.appId) || a == entry
  {
    var r := apps[i := entry];
    forall k | 0 <= k < |apps| && k != i ensures r[k].appId != entry.appId && r[k] in apps {
      assert apps[k] in apps && apps[i] in apps;
    }
    forall a | a in apps && a.appId != entry.appId ensures a in r {
      var k :| 0 <= k < |apps| && apps[k] == a;
      assert r[k] == a;
    }
    assert r[i] == entry;
  }

  lemma MovedEntry(s: State, appId: string, token: string, email: string, arn: nat)
    requires Inv(s) && email in s.users && arn !in s.live
    requires Owner(s, appId).Some? && Owner(s, appId).value != email
    ensures AppsUnique(SetToken(s, appId, token, email, arn))
    ensures EndpointsMatch(SetToken(s, appId, token, email, arn))
  {
    var t := SetToken(s, appId, token, email, arn);
    var owner := Owner(s, appId).value;
    var app := s.users[owner].apps[IndexOfApp(s.users[owner].apps, appId)];
    assert Owns(s, owner, app);
    if app.tokenPush == token {
      MoveIsConsistent(s, t, owner, app, email, app);
    } else {
      MoveIsConsistent(s, t, owner, app, email, app.(endpoint := arn));
    }
  }

  lemma MoveIsConsistent(s: State, t: State, owner: string, app: App, email: string, entry: App)
    requires AppsUnique(s) && EndpointsMatch(s)
    requires Owns(s, owner, app) && email in s.users && email != owner
    requires entry.appId == app.appId
    requires t.users == s.users[owner := s.users[owner].(apps := Without(s.users[owner].apps, AppKey, app.appId))]
                               [email := s.users[email].(apps := s.users[email].apps + [entry])]
    requires entry.endpoint !in s.live || entry.endpoint == app.endpoint
    requires t.live.Keys == s.live.Keys - {app.endpoint} + {entry.endpoint}
    ensures AppsUnique(t) && EndpointsMatch(t)
  {
    OtherUserReplaced(s, t, owner, app, email, entry);
    MovedEndpoint(s, t, owner, app, entry);
    ReplacementIsConsistent(s, t, app.appId, email, entry);
  }

  lemma MovedEndpoint(s: State, t: State, owner: string, app: App, entry: App)
    requires AppsUnique(s) && EndpointsMatch(s) && Owns(s, owner, app)
    requires entry.endpoint !in s.live || entry.endpoint == app.endpoint
    requires t.live.Keys == s.live.Keys - {app.endpoint} + {entry.endpoint}
    ensures EndpointMoved(s, t, app.appId, entry)
  {
  }

  lemma OtherUserReplaced(s: State, t: State, owner: string, app: App, email: string, entry: App)
    requires AppsUnique(s) && Owns(s, owner, app) && email in s.users && email != owner
    requires entry.appId == app.appId
    requires t.users.Keys == s.users.Keys
    requires t.users[owner].apps == Without(s.users[owner].apps, AppKey, app.appId)
    requires t.users[email].apps == s.users[email].apps + [entry]
    requires forall e :: e in s.users && e != owner && e != email ==> t.users[e] == s.users[e]
    ensures EntryReplaced(s, t, app.appId, email, entry)
    ensures forall e :: e in t.users ==> NoDuplicates(t.users[e].apps)
  {
    var pulled := Without(s.users[owner].apps, AppKey, app.appId);
    forall e, a ensures Owns(t, e, a) <==> (Owns(s, e, a) && a.appId != app.appId) || (e == email && a == entry) {
      if e == owner {
        assert a in pulled <==> a in s.users[owner].apps && AppKey(a) != app.appId;
      } else if Owns(s, e, a) {
        assert a.appId != app.appId;
      }
    }
    forall e | e in t.users ensures NoDuplicates(t.users[e].apps) {
      if e == email {
        assert !Owns(s, email, entry);
        AppendDistinct(s.users[email].apps, entry);
      } else if e == owner {
        assert NoDuplicates(pulled);
      }
    }
  }

  /** Links do not depend on the apps. */
  lemma LinksUntouched(s: State, t: State)
    requires LinksSymmetric(s) && t.devices == s.devices && t.users.Keys == s.users.Keys
    requires forall e :: e in s.users ==> t.users[e].comunicadores == s.users[e].comunicadores
    ensures LinksSymmetric(t)
  {
    forall e, c ensures ListedOnUser(t, e, c) <==> ListedOnDevice(t, e, c) {
      assert ListedOnUser(s, e, c) <==> ListedOnDevice(s, e, c);
    }
  }

  /** The handler keeps the registry consistent exactly when the given email is registered. */
  lemma SetTokenConsistentIff(s: State, appId: string, token: string, email: string, arn: nat)
    requires Inv(s) && arn !in s.live
    ensures Inv(SetToken(s, appId, token, email, arn)) <==> email in s.users
  {
    if email in s.users {
      SetTokenKeepsInv(s, appId, token, email, arn);
    } else {
      UnknownEmailOrphansEndpoint(s, appId, token, email, arn);
    }
  }

  /** For an unknown email some endpoint stays live that no user stores. */
  lemma UnknownEmailOrphansEndpoint(s: State, appId: string, token: string, email: string, arn: nat)
    requires Inv(s) && arn !in s.live && email !in s.users
    ensures !EndpointsMatch(SetToken(s, appId, token, email, arn))
  {
    var t := SetToken(s, appId, token, email, arn);
    match Owner(s, appId)
    case None =>
      assert arn in t.live && forall e, a :: Owns(t, e, a) ==> Owns(s, e, a);
    case Some(owner) =>
      var app := s.users[owner].apps[IndexOfApp(s.users[owner].apps, appId)];
      assert Owns(s, owner, app);
      forall e, a | Owns(t, e, a) ensures Owns(s, e, a) && a != app {
        if e == owner {
          assert AppKey(a) != appId;
        } else {
          assert Owns(s, e, a);
        }
      }
      var orphan := if app.tokenPush == token then app.endpoint else arn;
      assert orphan in t.live;
  }

  /** Every stored token is the one its endpoint was created with. */
  ghost predicate TokensMatch(s: State) {
    forall e, a :: Owns(s, e, a) ==> a.endpoint in s.live && s.live[a.endpoint] == a.tokenPush
  }

  /** The old entry of an app that changes its user and its token at once. */
  ghost predicate MovesWithNewToken(s: State, appId: string, token: string, email: string) {
    exists e, a :: Owns(s, e, a) && a.appId == appId && e != email && a.tokenPush != token
  }

  /**
   Stored tokens keep matching their endpoints unless an app changes user and token in one
   request: then the entry is stored under its old token.
   */
  lemma TokensMatchIff(s: State, appId: string, token: string, email: string, arn: nat)
    requires Inv(s) && TokensMatch(s) && email in s.users && arn !in s.live
    ensures TokensMatch(SetToken(s, appId, token, email, arn))
            <==> !MovesWithNewToken(s, appId, token, email)
  {
    match Owner(s, appId)
    case None =>
      NewEntryTokens(s, appId, token, email, arn);
    case Some(owner) =>
      var i := IndexOfApp(s.users[owner].apps, appId);
      var app := s.users[owner].apps[i];
      assert Owns(s, owner, app);
      assert MovesWithNewToken(s, appId, token, email) <==> owner != email && app.tokenPush != token;
      if owner != email {
        MovedEntryTokens(s, appId, token, email, arn, owner, app);
      } else if app.tokenPush != token {
        RefreshedEntryTokens(s, appId, token, email, arn);
      }
  }

  lemma NewEntryTokens(s: State, appId: string, token: string, email: string, arn: nat)
    requires Inv(s) && TokensMatch(s) && email in s.users && arn !in s.live && Owner(s, appId).None?
    ensures TokensMatch(SetToken(s, appId, token, email, arn))
    ensures !MovesWithNewToken(s, appId, token, email)
  {
    forall e, a | Owns(s, e, a) ensures a.appId != appId {
      if a.appId == appId {
        OwnerIsUnique(s, appId, e);
      }
    }
    TokensAfterReplacement(s, SetToken(s, appId, token, email, arn), email, App(appId, token, arn));
  }

  lemma RefreshedEntryTokens(s: State, appId: string, token: string, email: string, arn: nat)
    requires Inv(s) && TokensMatch(s) && email in s.users && arn !in s.live && Owner(s, appId) == Some(email)
    ensures TokensMatch(SetToken(s, appId, token, email, arn))
  {
    var t := SetToken(s, appId, token, email, arn);
    var i := IndexOfApp(s.users[email].apps, appId);
    var app := s.users[email].apps[i];
    if app.tokenPush != token {
      assert Owns(s, email, app);
      ServesOnlyOwn(s, email, app);
      SameUserReplaced(s, t, i, email, App(appId, token, arn));
      TokensAfterReplacement(s, t, email, App(appId, token, arn));
    }
  }

  lemma MovedEntryTokens(s: State, appId: string, token: string, email: string, arn: nat, owner: string, app: App)
    requires Inv(s) && TokensMatch(s) && email in s.users && arn !in s.live
    requires Owner(s, appId) == Some(owner) && owner != email
    requires Owns(s, owner, app) && app == s.users[owner].apps[IndexOfApp(s.users[owner].apps, appId)]
    ensures TokensMatch(SetToken(s, appId, token, email, arn)) <==> app.tokenPush == token
  {
    var t := SetToken(s, appId, token, email, arn);
    if app.tokenPush == token {
      MoveTokens(s, t, owner, app, email, app);
    } else {
      MoveTokens(s, t, owner, app, email, app.(endpoint := arn));
    }
  }

  lemma MoveTokens(s: State, t: State, owner: string, app: App, email: string, entry: App)
    requires Inv(s) && TokensMatch(s) && Owns(s, owner, app) && email in s.users && email != owner
    requires entry.appId == app.appId
    requires t.users == s.users[owner := s.users[owner].(apps := Without(s.users[owner].apps, AppKey, app.appId))]
                               [email := s.users[email].(apps := s.users[email].apps + [entry])]
    requires entry.endpoint !in s.live || entry.endpoint == app.endpoint
    requires entry.endpoint in t.live
    requires forall p :: p in s.live && p != app.endpoint ==> p in t.live && t.live[p] == s.live[p]
    ensures TokensMatch(t) <==> t.live[entry.endpoint] == entry.tokenPush
  {
    ServesOnlyOwn(s, owner, app);
    OtherUserReplaced(s, t, owner, app, email, entry);
    TokensAfterReplacement(s, t, email, entry);
  }

  lemma TokensAfterReplacement(s: State, t: State, email: string, entry: App)
    requires Inv(s) && TokensMatch(s) && EntryReplaced(s, t, entry.appId, email, entry)
    requires entry.endpoint in t.live
    requires forall p :: p in s.live && p != entry.endpoint && !Serves(s, entry.appId, p) ==>
               p in t.live && t.live[p] == s.live[p]
    requires entry.endpoint !in s.live || Serves(s, entry.appId, entry.endpoint)
    ensures TokensMatch(t) <==> t.live[entry.endpoint] == entry.tokenPush
  {
    assert Owns(t, email, entry);
    forall e, a | Owns(t, e, a) && a != entry
      ensures a.endpoint in t.live && t.live[a.endpoint] == a.tokenPush
    {
      assert Owns(s, e, a) && a.appId != entry.appId;
    }
  }

  lemma RunOfCons(s: State, ev: Event, rest: seq<Event>, check: PasswordCheck)
    ensures AdmissibleRun(s, [ev] + rest, check)
            <==> Admissible(s, ev) && AdmissibleRun(Step(s, ev, check), rest, check)
    ensures Run(s, [ev] + rest, check) == Run(Step(s, ev, check), rest, check)
  {
    assert ([ev] + rest)[1..] == rest;
  }

  /** Two users, and one app, which is the first user's. */
  function OneApp(): State {
    var a, b := User([App("app", "old", 0)], []), User([], []);
    State(map["a" := a, "b" := b], map[], map[0 := "old"])
  }

  lemma OneAppReachable(check: PasswordCheck)
    ensures exists events :: AdmissibleRun(EMPTY, events, check) && Run(EMPTY, events, check) == OneApp()
  {
    var s1 := Step(EMPTY, UserCreated("a"), check);
    var s2 := Step(s1, UserCreated("b"), check);
    var login := TokenRequest("app", "old", "a", 0);
    assert s2 == State(map["a" := User([], []), "b" := User([], [])], map[], map[]);
    FirstEntry(s2);
    RunOfCons(s2, login, [], check);
    RunOfCons(s1, UserCreated("b"), [login] + [], check);
    RunOfCons(EMPTY, UserCreated("a"), [UserCreated("b")] + ([login] + []), check);
    assert Run(OneApp(), [], check) == OneApp();
  }

  lemma FirstEntry(s: State)
    requires s == State(map["a" := User([], []), "b" := User([], [])], map[], map[])
    ensures SetToken(s, "app", "old", "a", 0) == OneApp()
  {
    assert Owner(s, "app").None?;
    assert [] + [App("app", "old", 0)] == [App("app", "old", 0)];
  }

  /**
   Two users, and an app of the first: when it comes back as the second's with another token, it
   is stored with a token that its endpoint was not created for.
   */
  lemma TokensCanDisagree(check: PasswordCheck)
    ensures exists events :: AdmissibleRun(EMPTY, events, check) && Run(EMPTY, events, check) == OneApp()
    ensures TokensMatch(OneApp()) && MovesWithNewToken(OneApp(), "app", "new", "b")
    ensures !TokensMatch(SetToken(OneApp(), "app", "new", "b", 1))
  {
    OneAppReachable(check);
    var events :| AdmissibleRun(EMPTY, events, check) && Run(EMPTY, events, check) == OneApp();
    RunKeepsInv(EMPTY, events, check);
    OneAppTokens();
  }

  lemma OneAppTokens()
    requires Inv(OneApp())
    ensures TokensMatch(OneApp()) && MovesWithNewToken(OneApp(), "app", "new", "b")
    ensures !TokensMatch(SetToken(OneApp(), "app", "new", "b", 1))
  {
    var entry := App("app", "old", 0);
    assert OneApp().users["a"].apps[0] == entry;
    assert Owns(OneApp(), "a", entry);
    TokensMatchIff(OneApp(), "app", "new", "b", 1);
  }

  /** The request names the token stored for the app, but the app's endpoint serves another one. */
  ghost predicate StaleTokenRequested(s: State, appId: string, token: string) {
    exists e, a :: Owns(s, e, a) && a.appId == appId && a.tokenPush == token
                   && a.endpoint in s.live && s.live[a.endpoint] != token
  }

  /** The request names the token stored for the app. */
  ghost predicate TokenStored(s: State, appId: string, token: string) {
    exists e, a :: Owns(s, e, a) && a.appId == appId && a.tokenPush == token
  }

  /**
   After a request of a registered user the app is that user's, a new endpoint exists exactly if
   the token was not the stored one, and the app's endpoint serves the requested token unless the
   stored token was stale.
   */
  lemma RequestedTokenServed(s: State, appId: string, token: string, email: string, arn: nat)
    requires Inv(s) && email in s.users && arn !in s.live
    ensures var t := SetToken(s, appId, token, email, arn);
            && (arn in t.live <==> !TokenStored(s, appId, token))
            && exists entry :: Owns(t, email, entry) && entry.appId == appId && entry.endpoint in t.live
                               && (t.live[entry.endpoint] == token <==> !StaleTokenRequested(s, appId, token))
  {
    var t := SetToken(s, appId, token, email, arn);
    match Owner(s, appId)
    case None =>
      forall e, a | Owns(s, e, a) ensures a.appId != appId {
        if a.appId == appId {
          OwnerIsUnique(s, appId, e);
        }
      }
      assert Owns(t, email, App(appId, token, arn));
    case Some(owner) =>
      var apps := s.users[owner].apps;
      var i := IndexOfApp(apps, appId);
      var app := apps[i];
      assert Owns(s, owner, app);
      assert TokenStored(s, appId, token) <==> app.tokenPush == token;
      assert StaleTokenRequested(s, appId, token) <==> app.tokenPush == token && s.live[app.endpoint] != token;
      if owner == email {
        RefreshServes(s, appId, token, email, arn, i);
      } else {
        var entry := if app.tokenPush == token then app else app.(endpoint := arn);
        assert t.users[email].apps[|s.users[email].apps|] == entry;
        assert Owns(t, email, entry);
      }
  }

  lemma RefreshServes(s: State, appId: string, token: string, email: string, arn: nat, i: nat)
    requires Inv(s) && email in s.users && arn !in s.live && Owner(s, appId) == Some(email)
    requires i == IndexOfApp(s.users[email].apps, appId) < |s.users[email].apps|
    ensures var t, app := SetToken(s, appId, token, email, arn), s.users[email].apps[i];
            var entry := if app.tokenPush == token then app else App(appId, token, arn);
            && Owns(t, email, entry) && entry.endpoint in t.live
            && (app.tokenPush == token ==> t == s)
            && (app.tokenPush != token ==> t.live[arn] == token)
  {
    var t, app := SetToken(s, appId, token, email, arn), s.users[email].apps[i];
    assert Owns(s, email, app);
    if app.tokenPush != token {
      assert t.users[email].apps[i] == App(appId, token, arn);
    }
  }

  /** An app as some user has it, with the token its endpoint was created for. */
  datatype Owned = Owned(email: string, app: App, served: string)

  /** What becomes of an app when it is announced with this token for this email. */
  function Announced(before: Option<Owned>, appId: string, token: string, email: string, arn: nat): Owned {
    if before.None? then
      Owned(email, App(appId, token, arn), token)
    else if before.value.app.tokenPush == token then
      before.value.(email := email)
    else
      var stored := if before.value.email == email then token else before.value.app.tokenPush;
      Owned(email, App(appId, stored, arn), token)
  }

  ghost predicate Has(s: State, appId: string, owned: Option<Owned>) {
    match owned
    case None => forall e, a :: Owns(s, e, a) ==> a.appId != appId
    case Some(Owned(email, app, served)) =>
      app.appId == appId && Owns(s, email, app) && app.endpoint in s.live && s.live[app.endpoint] == served
  }

  /** Everything that is not of the apps' collection of the registry, and every other app. */
  ghost predicate OthersUntouched(s: State, t: State, appId: string) {
    && t.devices == s.devices && t.users.Keys == s.users.Keys
    && (forall e :: e in s.users ==> t.users[e].comunicadores == s.users[e].comunicadores)
    && (forall e, a: App :: a.appId != appId ==> (Owns(t, e, a) <==> Owns(s, e, a)))
    && (forall p :: p in s.live && !Serves(s, appId, p) ==> p in t.live && t.live[p] == s.live[p])
  }

  /**
   A request changes the entry and the endpoint of its own app and nothing else: all other apps
   of all users stay, with their live endpoints. For an unknown email the app is nobody's.
   */
  lemma RequestTouchesOnlyItsApp(s: State, before: Option<Owned>, appId: string, token: string,
                                 email: string, arn: nat)
    requires Inv(s) && arn !in s.live && Has(s, appId, before)
    ensures OthersUntouched(s, SetToken(s, appId, token, email, arn), appId)
    ensures Has(SetToken(s, appId, token, email, arn), appId,
                if email in s.users then Some(Announced(before, appId, token, email, arn)) else None)
    ensures SetToken(s, appId, token, email, arn).live.Keys <= s.live.Keys + {arn}
  {
    OwnerIsTold(s, appId, before);
    match before
    case None =>
      NewAppOnly(s, appId, token, email, arn);
    case Some(owned) =>
      if owned.email == email {
        RefreshOnly(s, owned, appId, token, email, arn);
      } else if email in s.users {
        MoveOnly(s, owned, appId, token, email, arn);
      } else {
        RemoveOnly(s, owned, appId, token, email, arn);
      }
  }

  lemma OwnerIsTold(s: State, appId: string, before: Option<Owned>)
    requires AppsUnique(s) && Has(s, appId, before)
    ensures before.None? ==> Owner(s, appId).None?
    ensures before.Some? ==>
              var o := before.value;
              && Owner(s, appId) == Some(o.email)
              && IndexOfApp(s.users[o.email].apps, appId) < |s.users[o.email].apps|
              && s.users[o.email].apps[IndexOfApp(s.users[o.email].apps, appId)] == o.app
  {
    if before.Some? {
      var o := before.value;
      OwnerIsUnique(s, appId, o.email);
      var found := s.users[o.email].apps[IndexOfApp(s.users[o.email].apps, appId)];
      assert Owns(s, o.email, found) && Owns(s, o.email, o.app);
    } else {
      forall e, a | e in s.users && a in s.users[e].apps ensures a.appId != appId {
        assert Owns(s, e, a);
      }
    }
  }

  lemma NewAppOnly(s: State, appId: string, token: string, email: string, arn: nat)
    requires Inv(s) && arn !in s.live && Owner(s, appId).None? && Has(s, appId, None)
    ensures var t, o := SetToken(s, appId, token, email, arn), Owned(email, App(appId, token, arn), token);
            OthersUntouched(s, t, appId) && Has(t, appId, if email in s.users then Some(o) else None)
  {
    PushKeepsLinks(s.users, email, App(appId, token, arn));
    assert email in s.users ==> Owns(SetToken(s, appId, token, email, arn), email, App(appId, token, arn));
  }

  lemma RemoveOnly(s: State, owned: Owned, appId: string, token: string, email: string, arn: nat)
    requires AppsUnique(s) && email !in s.users && arn !in s.live && Owner(s, appId) == Some(owned.email)
    requires Has(s, appId, Some(owned))
    requires var apps := s.users[owned.email].apps;
             IndexOfApp(apps, appId) < |apps| && apps[IndexOfApp(apps, appId)] == owned.app
    ensures OthersUntouched(s, SetToken(s, appId, token, email, arn), appId)
    ensures Has(SetToken(s, appId, token, email, arn), appId, None)
  {
    AppPulled(s, SetToken(s, appId, token, email, arn), owned.email, owned.app);
  }

  lemma AppPulled(s: State, t: State, owner: string, app: App)
    requires AppsUnique(s) && Owns(s, owner, app) && t.devices == s.devices
    requires t.users == s.users[owner := s.users[owner].(apps := Without(s.users[owner].apps, AppKey, app.appId))]
    requires forall p :: p in s.live && p != app.endpoint ==> p in t.live && t.live[p] == s.live[p]
    ensures OthersUntouched(s, t, app.appId)
    ensures Has(t, app.appId, None)
  {
    ServesOnlyOwn(s, owner, app);
    forall e, a ensures Owns(t, e, a) <==> Owns(s, e, a) && a.appId != app.appId {
      assert e == owner ==> (a in t.users[e].apps <==> a in s.users[e].apps && AppKey(a) != app.appId);
    }
  }

  lemma RefreshOnly(s: State, owned: Owned, appId: string, token: string, email: string, arn: nat)
    requires Inv(s) && email in s.users && arn !in s.live && Owner(s, appId) == Some(email)
    requires Has(s, appId, Some(owned)) && owned.email == email
    requires var apps := s.users[email].apps;
             IndexOfApp(apps, appId) < |apps| && apps[IndexOfApp(apps, appId)] == owned.app
    ensures OthersUntouched(s, SetToken(s, appId, token, email, arn), appId)
    ensures Has(SetToken(s, appId, token, email, arn), appId,
                Some(Announced(Some(owned), appId, token, email, arn)))
  {
    if owned.app.tokenPush != token {
      var t, entry := SetToken(s, appId, token, email, arn), App(appId, token, arn);
      ServesOnlyOwn(s, email, owned.app);
      SameUserReplaced(s, t, IndexOfApp(s.users[email].apps, appId), email, entry);
      assert Owns(t, email, entry);
    }
  }

  lemma MoveOnly(s: State, owned: Owned, appId: string, token: string, email: string, arn: nat)
    requires AppsUnique(s) && email in s.users && arn !in s.live && Owner(s, appId) == Some(owned.email)
    requires Has(s, appId, Some(owned)) && owned.email != email
    requires var apps := s.users[owned.email].apps;
             IndexOfApp(apps, appId) < |apps| && apps[IndexOfApp(apps, appId)] == owned.app
    ensures OthersUntouched(s, SetToken(s, appId, token, email, arn), appId)
    ensures Has(SetToken(s, appId, token, email, arn), appId,
                Some(Announced(Some(owned), appId, token, email, arn)))
  {
    var t := SetToken(s, appId, token, email, arn);
    var o := Announced(Some(owned), appId, token, email, arn);
    MoveUntouched(s, t, owned.email, owned.app, email, o.app);
  }

  lemma MoveUntouched(s: State, t: State, owner: string, app: App, email: string, entry: App)
    requires AppsUnique(s) && Owns(s, owner, app) && email in s.users && email != owner
    requires entry.appId == app.appId && t.devices == s.devices
    requires t.users == s.users[owner := s.users[owner].(apps := Without(s.users[owner].apps, AppKey, app.appId))]
                               [email := s.users[email].(apps := s.users[email].apps + [entry])]
    requires forall p :: p in s.live && p != app.endpoint ==> p in t.live && t.live[p] == s.live[p]
    ensures OthersUntouched(s, t, app.appId)
    ensures Owns(t, email, entry)
  {
    ServesOnlyOwn(s, owner, app);
    OtherUserReplaced(s, t, owner, app, email, entry);
  }

  // ---------------------------------------------------------------- linking

  /** Both keys of the device are configured; otherwise no key is asked for. */
  predicate IsProtected(d: Device) {
    d.clavem != "" && d.claveh != ""
  }

  predicate KnowsKey(d: Device, clave: Option<string>, check: PasswordCheck) {
    clave.Some? && clave.value != "" && (check(clave.value, d.clavem) || check(clave.value, d.claveh))
  }

  function RoleGranted(d: Device, clave: Option<string>, check: PasswordCheck): Rol {
    if IsProtected(d) && clave.Some? && !check(clave.value, d.clavem) then Habitual else Master
  }

  /** The link stands at the end of both lists, and nothing else has changed. */
  predicate OnlyLinkAdded(s: State, t: State, comId: string, email: string, rol: Rol)
    requires comId in s.devices && email in s.users
  {
    var us, cs := s.devices[comId].usuarios, s.users[email].comunicadores;
    t == s.(devices := s.devices[comId := s.devices[comId].(usuarios := us + [Link(email, rol)])],
            users := s.users[email := s.users[email].(comunicadores := cs + [comId])])
  }

  /**
   Who may link and as what: an unprotected device takes every registered user as master, a
   protected one those who know a key, as master if it is the master key. The link is added last.
   */
  lemma LinkGrants(s: State, comId: string, email: string, clave: Option<string>, check: PasswordCheck)
    ensures var (t, status) := LinkUser(s, comId, email, clave, check);
            && (status.Ok? <==>
                  && comId in s.devices && email in s.users && !ListedOnDevice(s, email, comId)
                  && (IsProtected(s.devices[comId]) ==> KnowsKey(s.devices[comId], clave, check)))
            && (!status.Ok? ==> t == s)
            && (status.Ok? ==> OnlyLinkAdded(s, t, comId, email, RoleGranted(s.devices[comId], clave, check)))
  {
  }

  lemma LinkKeepsInv(s: State, comId: string, email: string, clave: Option<string>, check: PasswordCheck)
    requires Inv(s)
    ensures Inv(LinkUser(s, comId, email, clave, check).0)
  {
    var (t, status) := LinkUser(s, comId, email, clave, check);
    if status.Ok? {
      AppsUntouched(s, t);
      LinkedBoth(s, t, comId, email, RoleFor(s.devices[comId], clave, check).value);
    }
  }

  /** The apps and endpoints do not depend on the links. */
  lemma AppsUntouched(s: State, t: State)
    requires AppsUnique(s) && EndpointsMatch(s) && t.live == s.live
    requires forall e :: e in s.users ==> e in t.users && t.users[e].apps == s.users[e].apps
    requires forall e :: e in t.users && e !in s.users ==> t.users[e].apps == []
    ensures AppsUnique(t) && EndpointsMatch(t)
  {
    assert forall e, a :: Owns(t, e, a) <==> Owns(s, e, a);
  }

  lemma LinkedBoth(s: State, t: State, comId: string, email: string, rol: Rol)
    requires LinksSymmetric(s) && comId in s.devices && email in s.users
    requires !IsLinked(s.devices[comId], email)
    requires var us := s.devices[comId].usuarios + [Link(email, rol)];
             t.devices == s.devices[comId := s.devices[comId].(usuarios := us)]
    requires var cs := s.users[email].comunicadores + [comId];
             t.users == s.users[email := s.users[email].(comunicadores := cs)]
    ensures LinksSymmetric(t)
  {
    var us, us' := s.devices[comId].usuarios, t.devices[comId].usuarios;
    assert us'[|us|] == Link(email, rol);
    assert !ListedOnDevice(s, email, comId);
    forall e, c ensures ListedOnUser(t, e, c) <==> ListedOnDevice(t, e, c) {
      assert ListedOnUser(s, e, c) <==> ListedOnDevice(s, e, c);
      assert ListedOnUser(t, e, c) <==> ListedOnUser(s, e, c) || (e == email && c == comId);
      assert c == comId && e != email ==> (ListedOnDevice(t, e, c) <==> ListedOnDevice(s, e, c));
    }
    AppendDistinct(s.users[email].comunicadores, comId);
    assert Keys(us', LinkKey) == Keys(us, LinkKey) + [email];
    assert email !in Keys(us, LinkKey);
    AppendDistinct(Keys(us, LinkKey), email);
  }

  lemma UnlinkKeepsInv(s: State, comId: string, email: string)
    requires Inv(s)
    ensures Inv(UnlinkUser(s, comId, email).0)
  {
    var (t, status) := UnlinkUser(s, comId, email);
    if status.Ok? {
      AppsUntouched(s, t);
      UnlinkedBoth(s, t, comId, email);
    }
  }

  lemma UnlinkedBoth(s: State, t: State, comId: string, email: string)
    requires LinksSymmetric(s) && comId in s.devices && email in s.users
    requires var us := Without(s.devices[comId].usuarios, LinkKey, email);
             t.devices == s.devices[comId := s.devices[comId].(usuarios := us)]
    requires var cs := Without(s.users[email].comunicadores, ComKey, comId);
             t.users == s.users[email := s.users[email].(comunicadores := cs)]
    ensures LinksSymmetric(t)
  {
    var us, cs := s.devices[comId].usuarios, s.users[email].comunicadores;
    forall e, c ensures ListedOnUser(t, e, c) <==> ListedOnDevice(t, e, c) {
      assert ListedOnUser(s, e, c) <==> ListedOnDevice(s, e, c);
      assert ListedOnUser(t, e, c) <==> ListedOnUser(s, e, c) && !(e == email && c == comId) by {
        assert c in Without(cs, ComKey, comId) <==> c in cs && ComKey(c) != comId;
      }
      assert ListedOnDevice(t, e, c) <==> ListedOnDevice(s, e, c) && !(e == email && c == comId) by {
        if c == comId && ListedOnDevice(s, e, c) && e != email {
          var l :| l in us && l.email == e;
          assert l in Without(us, LinkKey, email);
        }
      }
    }
    WithoutKeepsKeysDistinct(us, LinkKey, email);
  }

  /** The pair of the user and the device is gone from both lists; every other link stays where it was. */
  ghost predicate OnlyLinkRemoved(s: State, t: State, comId: string, email: string)
    requires comId in s.devices && email in s.users
  {
    var us, cs := s.devices[comId].usuarios, s.users[email].comunicadores;
    exists i, j ::
      && 0 <= i < |us| && us[i].email == email && 0 <= j < |cs| && cs[j] == comId
      && t == s.(devices := s.devices[comId := s.devices[comId].(usuarios := us[..i] + us[i + 1..])],
                 users := s.users[email := s.users[email].(comunicadores := cs[..j] + cs[j + 1..])])
  }

  /**
   An unlink succeeds exactly if the device lists the user. It takes that one entry out of each of
   the two lists, and nothing else changes; a refusal changes nothing.
   */
  lemma UnlinkRemovesOne(s: State, comId: string, email: string)
    requires Inv(s)
    ensures var (t, status) := UnlinkUser(s, comId, email);
            && (status.Ok? <==> ListedOnDevice(s, email, comId))
            && (status.Ok? ==> comId in s.devices && email in s.users && OnlyLinkRemoved(s, t, comId, email))
            && (forall e, c :: ListedOnDevice(t, e, c)
                               <==> ListedOnDevice(s, e, c) && (status.Ok? ==> e != email || c != comId))
            && (!status.Ok? ==> t == s)
  {
    var (t, status) := UnlinkUser(s, comId, email);
    assert ListedOnUser(s, email, comId) <==> ListedOnDevice(s, email, comId);
    if ListedOnDevice(s, email, comId) {
      PulledFromBoth(s, t, comId, email);
      UnlinkedOnDevices(s, t, comId, email);
    }
  }

  lemma PulledFromBoth(s: State, t: State, comId: string, email: string)
    requires LinksSymmetric(s) && ListedOnDevice(s, email, comId) && ListedOnUser(s, email, comId)
    requires t == UnlinkUser(s, comId, email).0
    ensures OnlyLinkRemoved(s, t, comId, email)
  {
    var i := PulledUser(s.devices[comId].usuarios, email);
    var j := PulledCom(s.users[email].comunicadores, comId);
  }

  lemma PulledUser(us: seq<Link>, email: string) returns (i: nat)
    requires NoDuplicates(Keys(us, LinkKey)) && exists l :: l in us && l.email == email
    ensures i < |us| && us[i].email == email && Without(us, LinkKey, email) == us[..i] + us[i + 1..]
  {
    i :| 0 <= i < |us| && us[i].email == email;
    WithoutRemovesOne(us, LinkKey, email, i);
  }

  lemma PulledCom(cs: seq<string>, comId: string) returns (j: nat)
    requires NoDuplicates(cs) && comId in cs
    ensures j < |cs| && cs[j] == comId && Without(cs, ComKey, comId) == cs[..j] + cs[j + 1..]
  {
    j :| 0 <= j < |cs| && cs[j] == comId;
    assert Keys(cs, ComKey) == cs;
    WithoutRemovesOne(cs, ComKey, comId, j);
  }

  lemma UnlinkedOnDevices(s: State, t: State, comId: string, email: string)
    requires comId in s.devices && email in s.users
    requires var us := Without(s.devices[comId].usuarios, LinkKey, email);
             t.devices == s.devices[comId := s.devices[comId].(usuarios := us)]
    ensures forall e, c :: ListedOnDevice(t, e, c) <==> ListedOnDevice(s, e, c) && (e != email || c != comId)
  {
    forall e | e != email && ListedOnDevice(s, e, comId) ensures ListedOnDevice(t, e, comId) {
      var l :| l in s.devices[comId].usuarios && l.email == e;
      assert l in t.devices[comId].usuarios;
    }
  }

  /** Unlinking right after a successful link restores both records. */
  lemma UnlinkUndoesLink(s: State, comId: string, email: string, clave: Option<string>, check: PasswordCheck)
    requires Inv(s)
    requires LinkUser(s, comId, email, clave, check).1.Ok?
    ensures UnlinkUser(LinkUser(s, comId, email, clave, check).0, comId, email) == (s, Ok)
  {
    var t := LinkUser(s, comId, email, clave, check).0;
    LinkThenUnlink(s, t, comId, email, RoleFor(s.devices[comId], clave, check).value);
  }

  lemma LinkThenUnlink(s: State, t: State, comId: string, email: string, rol: Rol)
    requires LinksSymmetric(s) && comId in s.devices && email in s.users
    requires !IsLinked(s.devices[comId], email) && t.live == s.live
    requires var us := s.devices[comId].usuarios + [Link(email, rol)];
             t.devices == s.devices[comId := s.devices[comId].(usuarios := us)]
    requires var cs := s.users[email].comunicadores + [comId];
             t.users == s.users[email := s.users[email].(comunicadores := cs)]
    ensures UnlinkUser(t, comId, email) == (s, Ok)
  {
    var d, u := s.devices[comId], s.users[email];
    var d' := d.(usuarios := d.usuarios + [Link(email, rol)]);
    assert !ListedOnDevice(s, email, comId) && !ListedOnUser(s, email, comId);
    assert d'.usuarios[|d.usuarios|] == Link(email, rol);
    assert IsLinked(d', email);
    WithoutUndoesAppend(d.usuarios, Link(email, rol), LinkKey);
    WithoutUndoesAppend(u.comunicadores, comId, ComKey);
    Restored(s.devices, comId, d');
    Restored(s.users, email, t.users[email]);
  }

  lemma Restored<K, V>(m: map<K, V>, k: K, v: V)
    requires k in m
    ensures m[k := v][k := m[k]] == m
  {
  }

  // ---------------------------------------------------------------- whole runs

  datatype Event =
    | UserCreated(email: string)
    | DeviceCreated(comId: string)
    | KeysChanged(comId: string, clavem: string, claveh: string)  // by modifyDevice
    | LinkRequest(comId: string, email: string, clave: Option<string>)
    | UnlinkRequest(comId: string, email: string)
    | TokenRequest(appId: string, token: string, email: string, arn: nat)

  ghost function Step(s: State, ev: Event, check: PasswordCheck): State {
    match ev
    case UserCreated(email) => NewUser(s, email)
    case DeviceCreated(comId) => NewDevice(s, comId)
    case KeysChanged(comId, m, h) =>
      if comId in s.devices then s.(devices := s.devices[comId := s.devices[comId].(clavem := m, claveh := h)]) else s
    case LinkRequest(comId, email, clave) => LinkUser(s, comId, email, clave, check).0
    case UnlinkRequest(comId, email) => UnlinkUser(s, comId, email).0
    case TokenRequest(appId, token, email, arn) => SetToken(s, appId, token, email, arn)
  }

  /** Tokens are set by registered users, and the service never returns a live endpoint as a new one. */
  predicate Admissible(s: State, ev: Event) {
    ev.TokenRequest? ==> ev.email in s.users && ev.arn !in s.live
  }

  ghost function Run(s: State, events: seq<Event>, check: PasswordCheck): State
    decreases events
  {
    if events == [] then s else Run(Step(s, events[0], check), events[1..], check)
  }

  ghost predicate AdmissibleRun(s: State, events: seq<Event>, check: PasswordCheck)
    decreases events
  {
    events != [] ==>
      Admissible(s, events[0]) && AdmissibleRun(Step(s, events[0], check), events[1..], check)
  }

  const EMPTY := State(map[], map[], map[])

  lemma StepKeepsInv(s: State, ev: Event, check: PasswordCheck)
    requires Inv(s) && Admissible(s, ev)
    ensures Inv(Step(s, ev, check))
  {
    match ev
    case LinkRequest(comId, email, clave) => LinkKeepsInv(s, comId, email, clave, check);
    case UnlinkRequest(comId, email) => UnlinkKeepsInv(s, comId, email);
    case TokenRequest(appId, token, email, arn) => SetTokenKeepsInv(s, appId, token, email, arn);
    case UserCreated(email) => CreationKeepsInv(s, Step(s, ev, check));
    case DeviceCreated(comId) => CreationKeepsInv(s, Step(s, ev, check));
    case KeysChanged(comId, m, h) => CreationKeepsInv(s, Step(s, ev, check));
  }

  /** New empty records and changed keys affect neither apps nor links. */
  lemma CreationKeepsInv(s: State, t: State)
    requires Inv(s) && t.live == s.live
    requires forall e :: e in s.users ==> e in t.users && t.users[e] == s.users[e]
    requires forall e :: e in t.users && e !in s.users ==> t.users[e] == User([], [])
    requires forall c :: c in s.devices ==> c in t.devices && t.devices[c].usuarios == s.devices[c].usuarios
    requires forall c :: c in t.devices && c !in s.devices ==> t.devices[c].usuarios == []
    ensures Inv(t)
  {
    AppsUntouched(s, t);
    forall e, c ensures ListedOnUser(t, e, c) <==> ListedOnDevice(t, e, c) {
      assert ListedOnUser(t, e, c) <==> ListedOnUser(s, e, c);
      assert ListedOnDevice(t, e, c) <==> ListedOnDevice(s, e, c);
    }
  }

  lemma {:induction false} RunKeepsInv(s: State, events: seq<Event>, check: PasswordCheck)
    requires Inv(s) && AdmissibleRun(s, events, check)
    ensures Inv(Run(s, events, check))
    decreases events
  {
    if events != [] {
      StepKeepsInv(s, events[0], check);
      RunKeepsInv(Step(s, events[0], check), events[1..], check);
    }
  }

  // ---------------------------------------------------------------- fan-out

  /** Each endpoint of the apps of exactly those users that the device lists, once. */
  ghost predicate FansOut(s: State, comId: string, endpoints: seq<nat>) {
    && NoDuplicates(endpoints)
    && forall p :: p in endpoints <==> exists e, a :: ListedOnDevice(s, e, comId) && Owns(s, e, a) && a.endpoint == p
  }

  /** The endpoints of the given users, user by user. */
  function EndpointsOf(users: seq<User>): seq<nat> {
    if users == [] then [] else Keys(users[0].apps, AppEndpoint) + EndpointsOf(users[1..])
  }

  function AppEndpoint(a: App): nat { a.endpoint }

  /** The users found by {comunicadores: comId}, each once, in whatever order the query returns them. */
  ghost predicate QueryResult(s: State, comId: string, emails: seq<string>, users: seq<User>) {
    && |emails| == |users| && NoDuplicates(emails)
    && (forall e :: e in emails <==> ListedOnUser(s, e, comId))
    && (forall i :: 0 <= i < |emails| ==> emails[i] in s.users && users[i] == s.users[emails[i]])
  }

  /** In every reachable state the published endpoints are those of the users listed on the device. */
  lemma ReachableFanOut(events: seq<Event>, check: PasswordCheck, comId: string, emails: seq<string>, users: seq<User>)
    requires AdmissibleRun(EMPTY, events, check)
    requires QueryResult(Run(EMPTY, events, check), comId, emails, users)
    ensures FansOut(Run(EMPTY, events, check), comId, EndpointsOf(users))
  {
    var s := Run(EMPTY, events, check);
    RunKeepsInv(EMPTY, events, check);
    EndpointsDistinct(s, emails, users);
    forall p ensures p in EndpointsOf(users)
                     <==> exists e, a :: ListedOnDevice(s, e, comId) && Owns(s, e, a) && a.endpoint == p
    {
      EndpointsMembers(s, emails, users, p);
      if e, a :| e in emails && Owns(s, e, a) && a.endpoint == p {
        assert ListedOnUser(s, e, comId) && ListedOnDevice(s, e, comId);
      }
      if e, a :| ListedOnDevice(s, e, comId) && Owns(s, e, a) && a.endpoint == p {
        assert ListedOnUser(s, e, comId) && e in emails;
      }
    }
  }

  lemma {:induction false} EndpointsMembers(s: State, emails: seq<string>, users: seq<User>, p: nat)
    requires |emails| == |users|
    requires forall i :: 0 <= i < |emails| ==> emails[i] in s.users && users[i] == s.users[emails[i]]
    ensures p in EndpointsOf(users) <==> exists e, a :: e in emails && Owns(s, e, a) && a.endpoint == p
  {
    if users != [] {
      EndpointsMembers(s, emails[1..], users[1..], p);
      assert emails == [emails[0]] + emails[1..];
      var own := Keys(users[0].apps, AppEndpoint);
      if p in own {
        var i :| 0 <= i < |own| && own[i] == p;
        assert Owns(s, emails[0], users[0].apps[i]);
      }
      if a :| Owns(s, emails[0], a) && a.endpoint == p {
        var i :| 0 <= i < |own| && users[0].apps[i] == a;
        assert own[i] == p;
      }
    }
  }

  lemma {:induction false} EndpointsDistinct(s: State, emails: seq<string>, users: seq<User>)
    requires AppsUnique(s) && EndpointsMatch(s)
    requires |emails| == |users| && NoDuplicates(emails)
    requires forall i :: 0 <= i < |emails| ==> emails[i] in s.users && users[i] == s.users[emails[i]]
    ensures NoDuplicates(EndpointsOf(users))
  {
    if users != [] {
      var apps := users[0].apps;
      var own, rest := Keys(apps, AppEndpoint), EndpointsOf(users[1..]);
      EndpointsDistinct(s, emails[1..], users[1..]);
      forall i, j | 0 <= i < j < |apps| ensures own[i] != own[j] {
        assert Owns(s, emails[0], apps[i]) && Owns(s, emails[0], apps[j]);
      }
      forall i | 0 <= i < |apps| ensures own[i] !in rest {
        EndpointsMembers(s, emails[1..], users[1..], own[i]);
        assert Owns(s, emails[0], apps[i]);
        assert emails[0] !in emails[1..];
      }
      ConcatDistinct(own, rest);
    }
  }

  // ---------------------------------------------------------------- the backend's handlers

  class Registry {
    var users: map<string, User>
    var devices: map<string, Device>
    var live: map<nat, string>

    ghost function View(): State
      reads this
    {
      State(users, devices, live)
    }

    constructor ()
      ensures View() == EMPTY
    {
      users, devices, live := map[], map[], map[];
    }

    /** setAppToken */
    method SetAppToken(appId: string, token: string, email: string, arn: nat) returns (ghost found: Found)
      modifies this
      ensures QueriesReturn(old(View()), appId, found)
      ensures View() == SetTokenFound(old(View()), found, appId, token, email, arn)
      ensures AppsUnique(old(View())) ==> View() == SetToken(old(View()), appId, token, email, arn)
    {
      var matching := set e | e in users && HasApp(users[e], appId);
      assert forall e :: e in users && HasApp(users[e], appId) ==> e in matching;
      if matching == {} {
        found := Nobody;
        live := live[arn := token];
        users := PushApp(users, email, App(appId, token, arn));
      } else {
        found := UpdateApp(matching, appId, token, email, arn);
      }
      if AppsUnique(old(View())) {
        AnyMatchWillDo(old(View()), found, appId, token, email, arn);
      }
    }

    /** The branches of setAppToken for an app that some user has. */
    method UpdateApp(matching: set<string>, appId: string, token: string, email: string, arn: nat)
      returns (ghost found: Found)
      requires matching != {} && matching == set e | e in users && HasApp(users[e], appId)
      modifies this
      ensures QueriesReturn(old(View()), appId, found)
      ensures View() == SetTokenFound(old(View()), found, appId, token, email, arn)
    {
      var owner :| owner in matching;
      var updated :| updated in matching;
      found := Found(owner, updated);
      var apps := users[owner].apps;
      var app := apps[IndexOfApp(apps, appId)];
      if owner == email {
        if app.tokenPush != token {
          live := live - {app.endpoint};
          live := live[arn := token];
          var stored := users[updated].apps;
          var entries := stored[IndexOfApp(stored, appId) := App(appId, token, arn)];
          users := users[updated := users[updated].(apps := entries)];
        }
      } else {
        users := users[owner := users[owner].(apps := Without(apps, AppKey, appId))];
        if app.tokenPush != token {
          live := live - {app.endpoint};
          live := live[arn := token];
          app := app.(endpoint := arn);
        }
        users := PushApp(users, email, app);
      }
    }

    /** The forEach that looks for the user among the users of the device. */
    method AlreadyLinked(device: Device, email: string) returns (alreadyLinked: bool)
      ensures alreadyLinked <==> IsLinked(device, email)
    {
      alreadyLinked := false;
      for i := 0 to |device.usuarios|
        invariant alreadyLinked <==> exists k :: 0 <= k < i && device.usuarios[k].email == email
      {
        if device.usuarios[i].email == email {
          alreadyLinked := true;
        }
      }
      if alreadyLinked {
        var k :| 0 <= k < |device.usuarios| && device.usuarios[k].email == email;
        assert device.usuarios[k] in device.usuarios;
      }
    }

    /** linkUserDevice */
    method LinkUserDevice(comId: string, email: string, clave: Option<string>, check: PasswordCheck)
      returns (status: Status)
      modifies this
      ensures (View(), status) == LinkUser(old(View()), comId, email, clave, check)
    {
      if comId !in devices || email !in users {
        return Conflict;
      }
      var device := devices[comId];
      var alreadyLinked := AlreadyLinked(device, email);
      if alreadyLinked {
        return Conflict;
      }
      var rol := Master;
      if device.clavem != "" && device.claveh != "" {
        if clave.None? || clave.value == "" {
          return Conflict;
        }
        if check(clave.value, device.clavem) {
          rol := Master;
        } else if check(clave.value, device.claveh) {
          rol := Habitual;
        } else {
          return Conflict;
        }
      }
      devices := devices[comId := device.(usuarios := device.usuarios + [Link(email, rol)])];
      users := users[email := users[email].(comunicadores := users[email].comunicadores + [comId])];
      return Ok;
    }

    /** unlinkUserDevice */
    method UnlinkUserDevice(comId: string, email: string) returns (status: Status)
      modifies this
      ensures (View(), status) == UnlinkUser(old(View()), comId, email)
    {
      if comId !in devices || email !in users {
        return Conflict;
      }
      var alreadyLinked := AlreadyLinked(devices[comId], email);
      if !alreadyLinked {
        return Conflict;
      }
      devices := devices[comId := devices[comId].(usuarios := Without(devices[comId].usuarios, LinkKey, email))];
      users := users[email := users[email].(comunicadores := Without(users[email].comunicadores, ComKey, comId))];
      return Ok;
    }
  }

  /** sendPushNotifications: the nested forEach over the users found and their apps. */
  method CollectEndpoints(users: seq<User>) returns (endpointsArn: seq<nat>)
    ensures endpointsArn == EndpointsOf(users)
  {
    endpointsArn := [];
    for i := 0 to |users|
      invariant endpointsArn + EndpointsOf(users[i..]) == EndpointsOf(users)
    {
      UserByUser(users, i, endpointsArn);
      endpointsArn := CollectApps(users[i].apps, endpointsArn);
    }
  }

  method CollectApps(apps: seq<App>, collected: seq<nat>) returns (endpointsArn: seq<nat>)
    ensures endpointsArn == collected + Keys(apps, AppEndpoint)
  {
    endpointsArn := collected;
    for j := 0 to |apps|
      invariant endpointsArn == collected + Keys(apps[..j], AppEndpoint)
    {
      assert Keys(apps[..j + 1], AppEndpoint) == Keys(apps[..j], AppEndpoint) + [apps[j].endpoint];
      endpointsArn := endpointsArn + [apps[j].endpoint];
    }
    assert apps[..|apps|] == apps;
  }

  lemma UserByUser(users: seq<User>, i: nat, before: seq<nat>)
    requires i < |users|
    ensures before + EndpointsOf(users[i..])
            == (before + Keys(users[i].apps, AppEndpoint)) + EndpointsOf(users[i + 1..])
  {
  }
}
