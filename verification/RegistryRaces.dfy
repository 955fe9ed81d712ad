/** The router handlers interleaved: each first reads and checks, and writes in later
    statements, so other handlers may run in between. A transaction is one step. */
module RegistryRaces {
  import opened Wrappers
  import opened Tunnel
  import opened Registry
  import opened Uuids

  /** A handler that has passed its checks; a script also provisions the tunnel before its insert. */
  datatype Flight =
    | Creating(name: string, location: string, ip: nat, id: Uuid, secret: string)
    | Updating(id: Uuid, sent: string, name: string, ip: nat)
    | Deleting(id: Uuid, sent: string)
    | Scripting(id: Uuid, read: Device, stage: Stage)
    | Finished

  datatype Site = Site(t: Tables, gone: set<Uuid>, flights: seq<Flight>)

  datatype Step =
    | Begin(q: Request)
    | Provision(flight: nat, keys: Option<Keypair>)
    | Commit(flight: nat)

  function FlightOf(t: Tables, q: Request): Flight {
    if Respond(t, q) != Done then Finished
    else match q
      case Create(_, name, location, ip, id, secret) => Creating(name, location, ip.value, id, secret)
      case Update(_, sent, name, ip) => Updating(IdOf(sent).value, sent, name, ip.value)
      case Delete(_, sent) => Deleting(IdOf(sent).value, sent)
      case Script(_, sent, tunnels, _) =>
        if tunnels then Scripting(IdOf(sent).value, t.devices[IdOf(sent).value], Reading) else Finished
  }

  function WgRow(t: Tables, id: Uuid): Option<Wg> {
    if id in t.devices then Some(t.devices[id].wg) else None
  }

  /** One statement of ensureWG on the shared tables. */
  function Provided(t: Tables, id: Uuid, stage: Stage, keys: Option<Keypair>): Tables {
    if Wins(WgRow(t, id), stage, keys) then
      t.(devices := t.devices[id := t.devices[id].(wg := Filled(Write(t.next, keys.value)))], next := t.next + 1)
    else t
  }

  /** A flight's text denotes its id. */
  predicate Spelled(f: Flight) {
    f.Updating? || f.Deleting? ==> IdOf(f.sent) == Some(f.id)
  }

  function Committed(t: Tables, f: Flight): Tables
    requires Spelled(f)
  {
    match f
    case Creating(name, location, ip, id, secret) => Created(t, name, location, ip, id, secret)
    case Updating(id, sent, name, ip) => Updated(t, id, sent, name, ip)
    case Deleting(id, sent) => Deleted(t, id, sent)
    case Scripting(id, read, stage) =>
      if stage.Returned? then TunnelInserted(t, id, stage.ip, read.secret, read.name) else t
    case Finished => t
  }

  function GoneAfter(w: Site, f: Flight): set<Uuid> {
    if f.Deleting? && f.id in w.t.devices then w.gone + {f.id} else w.gone
  }

  /** An id the database draws has never been used, and neither have its first eight characters. */
  predicate NewId(w: Site, id: Uuid) {
    forall e: Uuid :: e in w.t.devices.Keys + w.gone ==> e[..8] != id[..8]
  }

  predicate Enabled(w: Site, s: Step) {
    match s
    case Begin(_) => true
    case Provision(k, _) => k < |w.flights| && w.flights[k].Scripting? && Busy(w.flights[k].stage)
    case Commit(k) =>
      && k < |w.flights| && Spelled(w.flights[k])
      && (w.flights[k].Scripting? ==> !Busy(w.flights[k].stage))
      && (w.flights[k].Creating? ==> NewId(w, w.flights[k].id))
  }

  function Next(w: Site, s: Step): Site
    requires Enabled(w, s)
  {
    match s
    case Begin(q) => w.(flights := w.flights + [FlightOf(w.t, q)])
    case Provision(k, keys) =>
      var f := w.flights[k];
      Site(Provided(w.t, f.id, f.stage, keys), w.gone,
            w.flights[k := f.(stage := AfterStatement(WgRow(w.t, f.id), w.t.next, f.stage, keys))])
    case Commit(k) => Site(Committed(w.t, w.flights[k]), GoneAfter(w, w.flights[k]), w.flights[k := Finished])
  }

  /** What must hold when a handler writes: what it checked, and that it addresses its own rows. */
  predicate StillRight(t: Tables, f: Flight)
    requires Spelled(f)
  {
    match f
    case Creating(_, _, ip, id, _) => AddressFree(t, ip, id)
    case Updating(id, sent, name, ip) =>
      id in t.devices ==> AddressFree(t, ip, id) && UpdateReaches(t, id, sent, name, ip)
    case Deleting(id, sent) => id in t.devices ==> sent[..8] == id[..8]
    case Scripting(id, read, stage) =>
      stage.Returned? ==> id in t.devices && (Named(t.nas, TunnelName(id)) != [] || t.devices[id].name == read.name)
    case _ => true
  }

  // ----- the invariant

  predicate Known(w: Site, id: Uuid) {
    id in w.t.devices || id in w.gone
  }

  /** A flight's device exists or did; while it does, secret and returned address are current. */
  predicate FlightOk(w: Site, f: Flight) {
    match f
    case Creating(_, _, _, _, _) => true
    case Updating(id, sent, _, _) => Known(w, id) && IdOf(sent) == Some(id)
    case Deleting(id, sent) => Known(w, id) && IdOf(sent) == Some(id)
    case Scripting(id, read, stage) =>
      && Known(w, id)
      && (id in w.t.devices ==>
            w.t.devices[id].secret == read.secret && (stage.Returned? ==> w.t.devices[id].wg.ip == Some(stage.ip)))
    case Finished => true
  }

  ghost predicate Apart(w: Site) {
    && (forall a :: a in w.gone ==> a !in w.t.devices)
    && (forall a: Uuid, b: Uuid :: Known(w, a) && Known(w, b) && a != b ==> a[..8] != b[..8])
  }

  ghost predicate Inv(w: Site) {
    Faithful(w.t) && Apart(w) && forall k :: 0 <= k < |w.flights| ==> FlightOk(w, w.flights[k])
  }

  /** Deletion is the only way out, and secrets and stored addresses never change. */
  ghost predicate Carries(w: Site, w': Site) {
    && (forall id :: id in w.t.devices || id in w.gone ==> id in w'.t.devices || id in w'.gone)
    && (forall id :: id in w.gone ==> id !in w'.t.devices)
    && (forall id :: id in w.t.devices && id in w'.t.devices ==>
          && w'.t.devices[id].secret == w.t.devices[id].secret
          && (w.t.devices[id].wg.ip.Some? ==> w'.t.devices[id].wg.ip == w.t.devices[id].wg.ip))
  }

  lemma FlightCarried(w: Site, w': Site, f: Flight)
    requires FlightOk(w, f) && Carries(w, w')
    ensures FlightOk(w', f)
  {
  }

  lemma GonePrefixFree(w: Site, id: Uuid)
    requires Apart(w) && Known(w, id) && id !in w.t.devices
    ensures PrefixFree(w.t, id)
  {
    forall e | e in w.t.devices ensures e[..8] != id[..8] {
      assert Known(w, e);
    }
  }

  lemma AbsentUnchanged(t: Tables, f: Flight)
    requires Faithful(t) && (f.Updating? || f.Deleting?) && f.id !in t.devices && PrefixFree(t, f.id) && Spelled(f)
    ensures Committed(t, f) == t
  {
    if f.sent[..8] != f.id[..8] {
      OtherSpelling(t, f.id, f.sent);
    }
    UnusedNames(t, f.sent);
    match f
    case Updating(id, sent, name, ip) =>
      PatchedNothing(t.nas, PublicName(sent), Some(ip), name);
      PatchedNothing(t.nas, TunnelName(sent), None, name + " (tunnel)");
    case Deleting(id, sent) =>
      DroppedNothing(t.nas, {PublicName(sent), TunnelName(sent)});
      assert t.devices - {id} == t.devices;
    case _ =>
  }

  /** A handler's write keeps the index if and only if what it checked still holds and the text
      it was sent starts like the id. */
  lemma CommitFaithfulIff(w: Site, k: nat)
    requires Inv(w) && Enabled(w, Commit(k))
    ensures Faithful(Next(w, Commit(k)).t) <==> StillRight(w.t, w.flights[k])
  {
    var t, f := w.t, w.flights[k];
    assert FlightOk(w, f);
    match f
    case Creating(name, location, ip, id, secret) =>
      assert id !in t.devices;
      CreateKeepsFaithfulIff(t, name, location, ip, id, secret);
    case Updating(id, sent, name, ip) =>
      if id in t.devices {
        UpdatedKeepsFaithfulIff(t, id, sent, name, ip);
      } else {
        GonePrefixFree(w, id);
        AbsentUnchanged(t, f);
      }
    case Deleting(id, sent) =>
      if id in t.devices {
        DeletedKeepsFaithfulIff(t, id, sent);
      } else {
        GonePrefixFree(w, id);
        AbsentUnchanged(t, f);
      }
    case Scripting(id, read, stage) =>
      if id !in t.devices {
        GonePrefixFree(w, id);
      }
      if stage.Returned? {
        TunnelInsertedFaithfulIff(t, id, stage.ip, read.secret, read.name);
      }
    case Finished =>
  }

  lemma ApartKept(w: Site, k: nat)
    requires Inv(w) && Enabled(w, Commit(k))
    ensures Apart(Next(w, Commit(k)))
  {
    var w', f := Next(w, Commit(k)), w.flights[k];
    forall a: Uuid, b: Uuid | Known(w', a) && Known(w', b) && a != b ensures a[..8] != b[..8] {
      if Known(w, a) && Known(w, b) {
      } else if Known(w, a) {
        assert b == f.id && a in w.t.devices.Keys + w.gone;
      } else {
        assert a == f.id && b in w.t.devices.Keys + w.gone;
      }
    }
  }

  lemma CommitKeepsInv(w: Site, k: nat)
    requires Inv(w) && Enabled(w, Commit(k)) && StillRight(w.t, w.flights[k])
    ensures Inv(Next(w, Commit(k)))
  {
    var w' := Next(w, Commit(k));
    CommitFaithfulIff(w, k);
    assert FlightOk(w, w.flights[k]);
    assert Carries(w, w');
    forall j | 0 <= j < |w'.flights| ensures FlightOk(w', w'.flights[j]) {
      FlightCarried(w, w', if j == k then Finished else w.flights[j]);
    }
    ApartKept(w, k);
  }

  lemma ProvidedKeepsFaithful(t: Tables, id: Uuid, stage: Stage, keys: Option<Keypair>)
    requires Faithful(t)
    ensures Faithful(Provided(t, id, stage, keys))
  {
    if Wins(WgRow(t, id), stage, keys) {
      assert DeviceOk(t, id);
      ProvisionedKeepsFaithful(t, id, keys.value);
      assert Provided(t, id, stage, keys) == Provisioned(t, id, keys.value);
    }
  }

  /** The compare-and-set changes one row that had no address. */
  lemma ProvidedRows(t: Tables, id: Uuid, stage: Stage, keys: Option<Keypair>)
    ensures var t' := Provided(t, id, stage, keys);
            && t'.devices.Keys == t.devices.Keys
            && (forall e :: e in t.devices ==>
                  && t'.devices[e].secret == t.devices[e].secret
                  && (t.devices[e].wg.ip.Some? ==> t'.devices[e].wg.ip == t.devices[e].wg.ip))
  {
  }

  /** What the caller is told is what the row then holds. */
  lemma AnswerIsCurrent(t: Tables, id: Uuid, stage: Stage, keys: Option<Keypair>)
    requires Busy(stage) && id in t.devices
    ensures var stage' := AfterStatement(WgRow(t, id), t.next, stage, keys);
            stage'.Returned? ==> Provided(t, id, stage, keys).devices[id].wg.ip == Some(stage'.ip)
  {
  }

  lemma SameDevicesApart(w: Site, w': Site)
    requires Apart(w) && w'.t.devices.Keys == w.t.devices.Keys && w'.gone == w.gone
    ensures Apart(w')
  {
    assert forall e :: e in w'.t.devices <==> e in w.t.devices;
    forall a: Uuid, b: Uuid | Known(w', a) && Known(w', b) && a != b ensures a[..8] != b[..8] {
      assert Known(w, a) && Known(w, b);
    }
  }

  lemma ProvisionKeepsInv(w: Site, k: nat, keys: Option<Keypair>)
    requires Inv(w) && Enabled(w, Provision(k, keys))
    ensures Inv(Next(w, Provision(k, keys)))
  {
    var w', f := Next(w, Provision(k, keys)), w.flights[k];
    ProvidedKeepsFaithful(w.t, f.id, f.stage, keys);
    ProvidedRows(w.t, f.id, f.stage, keys);
    assert Carries(w, w');
    forall j | 0 <= j < |w'.flights| ensures FlightOk(w', w'.flights[j]) {
      FlightCarried(w, w', w.flights[j]);
      if j == k && f.id in w.t.devices {
        AnswerIsCurrent(w.t, f.id, f.stage, keys);
      }
    }
    SameDevicesApart(w, w');
  }

  lemma BeginKeepsInv(w: Site, q: Request)
    requires Inv(w)
    ensures Inv(Next(w, Begin(q)))
  {
    var w' := Next(w, Begin(q));
    forall j | 0 <= j < |w'.flights| ensures FlightOk(w', w'.flights[j]) {
      if j < |w.flights| {
        FlightCarried(w, w', w.flights[j]);
      }
    }
    SameDevicesApart(w, w');
  }

  /** Every step of the run can be taken, and every write happens while its checks still hold. */
  predicate Undisturbed(w: Site, steps: seq<Step>)
    decreases |steps|
  {
    steps == [] ||
    (Enabled(w, steps[0])
     && (steps[0].Commit? ==> StillRight(w.t, w.flights[steps[0].flight]))
     && Undisturbed(Next(w, steps[0]), steps[1..]))
  }

  predicate Admissible(w: Site, steps: seq<Step>)
    decreases |steps|
  {
    steps == [] || (Enabled(w, steps[0]) && Admissible(Next(w, steps[0]), steps[1..]))
  }

  function Run(w: Site, steps: seq<Step>): Site
    requires Admissible(w, steps)
    decreases |steps|
  {
    if steps == [] then w else Run(Next(w, steps[0]), steps[1..])
  }

  function Start(locations: map<string, nat>): Site {
    Site(Registry.Empty(locations), {}, [])
  }

  lemma {:induction false} RunKeepsInv(w: Site, steps: seq<Step>)
    requires Inv(w) && Undisturbed(w, steps)
    ensures Admissible(w, steps) && Inv(Run(w, steps))
    decreases |steps|
  {
    if steps != [] {
      match steps[0] {
        case Begin(q) => BeginKeepsInv(w, q);
        case Provision(k, keys) => ProvisionKeepsInv(w, k, keys);
        case Commit(k) => CommitKeepsInv(w, k);
      }
      RunKeepsInv(Next(w, steps[0]), steps[1..]);
    }
  }

  /** Any number of handlers with their statements interleaved: the index stays faithful as
      long as every write still finds what its handler checked. */
  lemma InterleavedIndexFaithful(locations: map<string, nat>, steps: seq<Step>)
    requires Undisturbed(Start(locations), steps)
    ensures Admissible(Start(locations), steps) && Faithful(Run(Start(locations), steps).t)
  {
    RunKeepsInv(Start(locations), steps);
  }

  // ----- what goes wrong otherwise

  lemma Then(w: Site, s: Step, rest: seq<Step>)
    requires Enabled(w, s) && Admissible(Next(w, s), rest)
    ensures Admissible(w, [s] + rest) && Run(w, [s] + rest) == Run(Next(w, s), rest)
  {
    assert ([s] + rest)[1..] == rest;
  }

  /** Two creations check the same free address before either inserts: both devices are registered. */
  lemma RacingCreations(locations: map<string, nat>, location: string, ip: nat, first: Uuid, second: Uuid,
      secret: string)
    requires location in locations && location != "" && first[..8] != second[..8]
    ensures var tenant := locations[location];
            var a := Create(tenant, "a", location, Some(ip), first, secret);
            var b := Create(tenant, "b", location, Some(ip), second, secret);
            var steps := [Begin(a)] + ([Begin(b)] + ([Commit(0)] + ([Commit(1)] + [])));
            Admissible(Start(locations), steps) && !Faithful(Run(Start(locations), steps).t)
  {
    var tenant, w0 := locations[location], Start(locations);
    var a := Create(tenant, "a", location, Some(ip), first, secret);
    var b := Create(tenant, "b", location, Some(ip), second, secret);
    var w2 := Next(Next(w0, Begin(a)), Begin(b));
    assert w2.flights == [Creating("a", location, ip, first, secret), Creating("b", location, ip, second, secret)];
    var w3 := Next(w2, Commit(0));
    assert w3.flights == [Finished, Creating("b", location, ip, second, secret)];
    CreatedKeepsFaithful(w0.t, "a", location, ip, first, secret);
    CreateKeepsFaithfulIff(w3.t, "b", location, ip, second, secret);
    assert first in w3.t.devices && w3.t.devices[first].nasIp == ip && first != second;
    Then(w3, Commit(1), []);
    Then(w2, Commit(0), [Commit(1)] + []);
    Then(Next(w0, Begin(a)), Begin(b), [Commit(0)] + ([Commit(1)] + []));
    Then(w0, Begin(a), [Begin(b)] + ([Commit(0)] + ([Commit(1)] + [])));
  }

  lemma {:induction false} RunAppend(w: Site, a: seq<Step>, b: seq<Step>)
    requires Admissible(w, a) && Admissible(Run(w, a), b)
    ensures Admissible(w, a + b) && Run(w, a + b) == Run(Run(w, a), b)
    decreases |a|
  {
    if a == [] {
      assert a + b == b;
    } else {
      assert (a + b)[1..] == a[1..] + b;
      RunAppend(Next(w, a[0]), a[1..], b);
    }
  }

  lemma RunThree(w: Site, a: Step, b: Step, c: Step)
    requires Enabled(w, a) && Enabled(Next(w, a), b) && Enabled(Next(Next(w, a), b), c)
    ensures Admissible(w, [a, b, c]) && Run(w, [a, b, c]) == Next(Next(Next(w, a), b), c)
  {
    var w1 := Next(w, a);
    Then(Next(w1, b), c, []);
    Then(w1, b, [c] + []);
    Then(w, a, [b] + ([c] + []));
    assert [a] + ([b] + ([c] + [])) == [a, b, c];
  }

  /** A script's reads and its provisioning. */
  function Fetched(t: Tables, id: Uuid, keys: Keypair): Flight
    requires id in t.devices
  {
    Scripting(id, t.devices[id], Returned(BASE + t.next, Some(keys.priv)))
  }

  lemma ScriptBegins(t: Tables, tenant: nat, sent: string, id: Uuid, unused: Keypair)
    requires Found(t, sent, tenant) == Some(id)
    ensures FlightOf(t, Script(tenant, sent, true, unused)) == Scripting(id, t.devices[id], Reading)
    ensures FlightOf(t, Request.Delete(tenant, sent)) == Deleting(id, sent)
  {
  }

  /** Both statements of the script's provisioning, with nothing in between. */
  lemma ScriptProvisions(t: Tables, id: Uuid, keys: Keypair)
    requires id in t.devices && t.devices[id].wg == UNSET
    ensures var w, p := Site(t, {}, [Scripting(id, t.devices[id], Reading)]), Provision(0, Some(keys));
            && Enabled(w, p) && Enabled(Next(w, p), p)
            && Next(Next(w, p), p) == Site(Provisioned(t, id, keys), {}, [Fetched(t, id, keys)])
  {
    var w, p := Site(t, {}, [Scripting(id, t.devices[id], Reading)]), Provision(0, Some(keys));
    assert Next(w, p) == Site(t, {}, [Scripting(id, t.devices[id], Claiming)]);
    assert Next(Next(w, p), p).flights == [Fetched(t, id, keys)];
  }

  lemma DeletionCommits(p: Tables, id: Uuid, sent: string, f: Flight)
    requires f.Scripting? && f.stage.Returned? && IdOf(sent) == Some(id)
    ensures var w := Site(p, {}, [f, Deleting(id, sent)]);
            && Enabled(w, Commit(1)) && Enabled(Next(w, Commit(1)), Commit(0))
            && Next(Next(w, Commit(1)), Commit(0)).t
               == TunnelInserted(Deleted(p, id, sent), f.id, f.stage.ip, f.read.secret, f.read.name)
  {
    var w := Site(p, {}, [f, Deleting(id, sent)]);
    assert Next(w, Commit(1)).flights == [f, Finished];
  }

  function FetchedSite(t: Tables, id: Uuid, keys: Keypair): Site
    requires id in t.devices
  {
    Site(Provisioned(t, id, keys), {}, [Fetched(t, id, keys)])
  }

  /** The deletion, then the script's insert. */
  function Overtaken(p: Tables, id: Uuid, sent: string, f: Flight): Tables
    requires |sent| >= 8 && f.Scripting? && f.stage.Returned?
  {
    TunnelInserted(Deleted(p, id, sent), f.id, f.stage.ip, f.read.secret, f.read.name)
  }

  lemma ScriptFetches(t: Tables, tenant: nat, sent: string, id: Uuid, keys: Keypair, unused: Keypair)
      returns (steps: seq<Step>)
    requires Found(t, sent, tenant) == Some(id) && t.devices[id].wg == UNSET
    ensures steps == [Begin(Script(tenant, sent, true, unused)), Provision(0, Some(keys)), Provision(0, Some(keys))]
    ensures Admissible(Site(t, {}, []), steps)
    ensures Run(Site(t, {}, []), steps) == FetchedSite(t, id, keys)
  {
    var w, fetch, provision := Site(t, {}, []), Begin(Script(tenant, sent, true, unused)), Provision(0, Some(keys));
    ScriptBegins(t, tenant, sent, id, unused);
    ScriptProvisions(t, id, keys);
    assert Next(w, fetch) == Site(t, {}, [Scripting(id, t.devices[id], Reading)]);
    steps := [fetch, provision, provision];
    RunThree(w, fetch, provision, provision);
  }

  lemma DeletionOvertakes(p: Tables, tenant: nat, sent: string, id: Uuid, f: Flight, unused: Keypair)
      returns (steps: seq<Step>)
    requires Found(p, sent, tenant) == Some(id) && f.Scripting? && f.stage.Returned?
    ensures steps == [Begin(Request.Delete(tenant, sent)), Commit(1), Commit(0)]
    ensures Admissible(Site(p, {}, [f]), steps)
    ensures Run(Site(p, {}, [f]), steps).t == Overtaken(p, id, sent, f)
  {
    var w, delete := Site(p, {}, [f]), Begin(Request.Delete(tenant, sent));
    ScriptBegins(p, tenant, sent, id, unused);
    DeletionCommits(p, id, sent, f);
    assert Next(w, delete) == Site(p, {}, [f, Deleting(id, sent)]);
    steps := [delete, Commit(1), Commit(0)];
    RunThree(w, delete, Commit(1), Commit(0));
  }

  lemma StillFound(t: Tables, tenant: nat, id: Uuid, keys: Keypair)
    requires Visible(t, id, tenant)
    ensures Found(t, id, tenant) == Some(id) && Found(Provisioned(t, id, keys), id, tenant) == Some(id)
  {
    OwnSpelling(id);
  }

  /** nas holds a tunnel row of a device that is gone. */
  ghost predicate StrayLeft(t: Tables, id: Uuid) {
    id !in t.devices && Named(t.nas, TunnelName(id)) != [] && !Faithful(t)
  }

  lemma OvertakenLeavesStray(p: Tables, id: Uuid, f: Flight)
    requires Faithful(p) && id in p.devices && f.Scripting? && f.stage.Returned? && f.id == id
    ensures StrayLeft(Overtaken(p, id, id, f), id)
  {
    var d := Deleted(p, id, id);
    DeletedKeepsFaithful(p, id);
    forall e | e in d.devices ensures e[..8] != id[..8] {
      PrefixesDiffer(p, e, id);
    }
    TunnelInsertedFaithfulIff(d, id, f.stage.ip, f.read.secret, f.read.name);
    NamedAppend(d.nas, Client(f.stage.ip, TunnelName(id), f.read.secret, f.read.name + " (tunnel)"), TunnelName(id));
  }

  /** What the two runs in a row come to, whatever their steps are. */
  lemma OvertakenInsert(t: Tables, id: Uuid, keys: Keypair, a: seq<Step>, b: seq<Step>)
    requires Faithful(t) && id in t.devices
    requires Admissible(Site(t, {}, []), a) && Run(Site(t, {}, []), a) == FetchedSite(t, id, keys)
    requires Admissible(FetchedSite(t, id, keys), b)
    requires Run(FetchedSite(t, id, keys), b).t == Overtaken(Provisioned(t, id, keys), id, id, Fetched(t, id, keys))
    ensures Admissible(Site(t, {}, []), a + b) && StrayLeft(Run(Site(t, {}, []), a + b).t, id)
  {
    ProvisionedKeepsFaithful(t, id, keys);
    OvertakenLeavesStray(Provisioned(t, id, keys), id, Fetched(t, id, keys));
    RunAppend(Site(t, {}, []), a, b);
  }

  /** A script is past its reads and its provisioning when the device is deleted; its insert
      then leaves a tunnel row of a device that is gone. */
  lemma ScriptRacesDeletion(t: Tables, tenant: nat, id: Uuid, keys: Keypair, unused: Keypair)
      returns (script: seq<Step>, deletion: seq<Step>)
    requires Faithful(t) && Visible(t, id, tenant) && t.devices[id].wg == UNSET
    ensures script == [Begin(Script(tenant, id, true, unused)), Provision(0, Some(keys)), Provision(0, Some(keys))]
    ensures deletion == [Begin(Request.Delete(tenant, id)), Commit(1), Commit(0)]
    ensures Admissible(Site(t, {}, []), script + deletion)
    ensures StrayLeft(Run(Site(t, {}, []), script + deletion).t, id)
  {
    StillFound(t, tenant, id, keys);
    script := ScriptFetches(t, tenant, id, id, keys, unused);
    deletion := DeletionOvertakes(Provisioned(t, id, keys), tenant, id, id, Fetched(t, id, keys), unused);
    OvertakenInsert(t, id, keys, script, deletion);
  }
}
