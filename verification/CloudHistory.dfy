/**
 What the history of requests tells about the cloud registry: every app and every pair of a user
 and a device evolves by itself, whatever happens to the others in between.
 */
module CloudHistory {
  import opened Options
  import opened CloudRegistry

  // ---------------------------------------------------------------- one app

  /** The app after one event: only its own requests matter. */
  function AppAfter(before: Option<Owned>, ev: Event, appId: string): Option<Owned> {
    match ev
    case TokenRequest(id, token, email, arn) =>
      if id == appId then Some(Announced(before, appId, token, email, arn)) else before
    case _ => before
  }

  function AppTold(before: Option<Owned>, events: seq<Event>, appId: string): Option<Owned>
    decreases events
  {
    if events == [] then before else AppTold(AppAfter(before, events[0], appId), events[1..], appId)
  }

  lemma StepOfApp(s: State, ev: Event, check: PasswordCheck, before: Option<Owned>, appId: string)
    requires Inv(s) && Admissible(s, ev) && Has(s, appId, before)
    ensures Has(Step(s, ev, check), appId, AppAfter(before, ev, appId))
  {
    match ev {
      case TokenRequest(id, token, email, arn) =>
        if id == appId {
          RequestTouchesOnlyItsApp(s, before, appId, token, email, arn);
        } else {
          RequestOfOther(s, id, token, email, arn, before, appId);
        }
      case _ =>
        AppsStay(s, ev, check);
    }
  }

  lemma AppsStay(s: State, ev: Event, check: PasswordCheck)
    requires !ev.TokenRequest?
    ensures Step(s, ev, check).live == s.live
    ensures forall e, a :: Owns(Step(s, ev, check), e, a) <==> Owns(s, e, a)
  {
  }

  lemma RequestOfOther(s: State, id: string, token: string, email: string, arn: nat,
                       before: Option<Owned>, appId: string)
    requires Inv(s) && arn !in s.live && Has(s, appId, before) && id != appId
    ensures Has(SetToken(s, id, token, email, arn), appId, before)
  {
    var other := Record(s, id);
    RequestTouchesOnlyItsApp(s, other, id, token, email, arn);
    if before.Some? {
      var o := before.value;
      assert !Serves(s, id, o.app.endpoint);
    }
  }

  /** The app as the registry has it. */
  ghost function Record(s: State, appId: string): (o: Option<Owned>)
    requires EndpointsMatch(s)
    ensures Has(s, appId, o)
  {
    if e, a :| Owns(s, e, a) && a.appId == appId then Some(Owned(e, a, s.live[a.endpoint])) else None
  }

  /** Over every run, each app is whose and what its own requests have made it. */
  lemma {:induction false} RunOfApp(s: State, events: seq<Event>, check: PasswordCheck,
                                    before: Option<Owned>, appId: string)
    requires Inv(s) && AdmissibleRun(s, events, check) && Has(s, appId, before)
    ensures Has(Run(s, events, check), appId, AppTold(before, events, appId))
    decreases events
  {
    if events != [] {
      StepKeepsInv(s, events[0], check);
      StepOfApp(s, events[0], check, before, appId);
      RunOfApp(Step(s, events[0], check), events[1..], check, AppAfter(before, events[0], appId), appId);
    }
  }

  /** From the empty registry, the history alone tells who has which app with which endpoint and token. */
  lemma AppsAreTold(events: seq<Event>, check: PasswordCheck, e: string, a: App)
    requires AdmissibleRun(EMPTY, events, check)
    ensures var t := Run(EMPTY, events, check);
            Owns(t, e, a) <==> a.endpoint in t.live
                               && AppTold(None, events, a.appId) == Some(Owned(e, a, t.live[a.endpoint]))
  {
    RunKeepsInv(EMPTY, events, check);
    RunOfApp(EMPTY, events, check, None, a.appId);
  }

  // ---------------------------------------------------------------- one user and one device

  /** What concerns a user and a device: whether they exist, the device's keys, and the role of the link. */
  datatype Pair = Pair(user: bool, device: bool, clavem: string, claveh: string, link: Option<Rol>)

  /** The role a request obtains from a device with these keys, if any. */
  function Granted(p: Pair, clave: Option<string>, check: PasswordCheck): Option<Rol> {
    var d := Device([], p.clavem, p.claveh);
    if IsProtected(d) && !KnowsKey(d, clave, check) then None else Some(RoleGranted(d, clave, check))
  }

  function PairAfter(p: Pair, ev: Event, check: PasswordCheck, e: string, c: string): Pair {
    match ev
    case UserCreated(email) => if email == e then p.(user := true) else p
    case DeviceCreated(comId) => if comId == c then p.(device := true) else p
    case KeysChanged(comId, m, h) => if comId == c && p.device then p.(clavem := m, claveh := h) else p
    case LinkRequest(comId, email, clave) =>
      if email == e && comId == c && p.user && p.device && p.link.None?
      then p.(link := Granted(p, clave, check)) else p
    case UnlinkRequest(comId, email) => if email == e && comId == c then p.(link := None) else p
    case TokenRequest(_, _, _, _) => p
  }

  function PairTold(p: Pair, events: seq<Event>, check: PasswordCheck, e: string, c: string): Pair
    decreases events
  {
    if events == [] then p else PairTold(PairAfter(p, events[0], check, e, c), events[1..], check, e, c)
  }

  /** The registry's records of the user and the device are those of the pair, on both sides of the link. */
  ghost predicate Shows(s: State, e: string, c: string, p: Pair) {
    && (p.user <==> e in s.users) && (p.device <==> c in s.devices)
    && (p.device ==> s.devices[c].clavem == p.clavem && s.devices[c].claveh == p.claveh)
    && (!p.device ==> p.clavem == "" && p.claveh == "")
    && (forall rol :: c in s.devices && Link(e, rol) in s.devices[c].usuarios <==> p.link == Some(rol))
    && (ListedOnUser(s, e, c) <==> p.link.Some?)
  }

  const NOTHING := Pair(false, false, "", "", None)

  lemma ListedIsLinked(s: State, e: string, c: string, p: Pair)
    requires Inv(s) && Shows(s, e, c, p)
    ensures ListedOnDevice(s, e, c) <==> p.link.Some?
    ensures p.link.Some? ==> p.user && p.device
  {
    assert ListedOnUser(s, e, c) <==> ListedOnDevice(s, e, c);
  }

  lemma StepOfPair(s: State, ev: Event, check: PasswordCheck, e: string, c: string, p: Pair)
    requires Inv(s) && Admissible(s, ev) && Shows(s, e, c, p)
    ensures Shows(Step(s, ev, check), e, c, PairAfter(p, ev, check, e, c))
  {
    ListedIsLinked(s, e, c, p);
    match ev {
      case LinkRequest(comId, email, clave) => LinkOfPair(s, comId, email, clave, check, e, c, p);
      case UnlinkRequest(comId, email) => UnlinkOfPair(s, comId, email, e, c, p);
      case TokenRequest(id, token, email, arn) =>
        RequestTouchesOnlyItsApp(s, Record(s, id), id, token, email, arn);
      case _ => CreationOfPair(s, ev, check, e, c, p);
    }
  }

  lemma CreationOfPair(s: State, ev: Event, check: PasswordCheck, e: string, c: string, p: Pair)
    requires ev.UserCreated? || ev.DeviceCreated? || ev.KeysChanged?
    requires Shows(s, e, c, p) && (p.link.Some? ==> p.user && p.device)
    ensures Shows(Step(s, ev, check), e, c, PairAfter(p, ev, check, e, c))
  {
  }

  lemma LinkOfPair(s: State, comId: string, email: string, clave: Option<string>, check: PasswordCheck,
                   e: string, c: string, p: Pair)
    requires Inv(s) && Shows(s, e, c, p) && (ListedOnDevice(s, e, c) <==> p.link.Some?)
    ensures Shows(LinkUser(s, comId, email, clave, check).0, e, c,
                  PairAfter(p, LinkRequest(comId, email, clave), check, e, c))
  {
    var (t, status) := LinkUser(s, comId, email, clave, check);
    if status.Ok? {
      var rol := RoleFor(s.devices[comId], clave, check).value;
      var us, cs := s.devices[comId].usuarios, s.users[email].comunicadores;
      assert forall l :: l in t.devices[comId].usuarios <==> l in us || l == Link(email, rol);
      assert forall x :: x in t.users[email].comunicadores <==> x in cs || x == comId;
    }
  }

  lemma UnlinkOfPair(s: State, comId: string, email: string, e: string, c: string, p: Pair)
    requires Inv(s) && Shows(s, e, c, p) && (ListedOnDevice(s, e, c) <==> p.link.Some?)
    ensures Shows(UnlinkUser(s, comId, email).0, e, c,
                  if email == e && comId == c then p.(link := None) else p)
  {
    var (t, status) := UnlinkUser(s, comId, email);
    if status.Ok? {
      var us, cs := s.devices[comId].usuarios, s.users[email].comunicadores;
      assert forall l :: l in t.devices[comId].usuarios <==> l in us && LinkKey(l) != email;
      assert forall x :: x in t.users[email].comunicadores <==> x in cs && ComKey(x) != comId;
    }
  }

  /**
   Over every run, a user is linked to a device, in which role, and listed on both sides, exactly
   as the creations, key changes, links and unlinks of these two tell.
   */
  lemma {:induction false} RunOfPair(s: State, events: seq<Event>, check: PasswordCheck,
                                     e: string, c: string, p: Pair)
    requires Inv(s) && AdmissibleRun(s, events, check) && Shows(s, e, c, p)
    ensures Shows(Run(s, events, check), e, c, PairTold(p, events, check, e, c))
    decreases events
  {
    if events != [] {
      StepKeepsInv(s, events[0], check);
      StepOfPair(s, events[0], check, e, c, p);
      RunOfPair(Step(s, events[0], check), events[1..], check, e, c, PairAfter(p, events[0], check, e, c));
    }
  }

  lemma PairsAreTold(events: seq<Event>, check: PasswordCheck, e: string, c: string)
    requires AdmissibleRun(EMPTY, events, check)
    ensures Shows(Run(EMPTY, events, check), e, c, PairTold(NOTHING, events, check, e, c))
  {
    RunOfPair(EMPTY, events, check, e, c, NOTHING);
  }
}
