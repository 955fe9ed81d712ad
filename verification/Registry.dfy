/** The router registry: the table `nas`, which FreeRADIUS reads, as an index kept in step
    with the table `devices`. */
module Registry {
  import opened Wrappers
  import opened Tunnel
  import opened Uuids

  /** IPv4 addresses are 32-bit numbers; a location belongs to one tenant. */
  datatype Device = Device(location: string, name: string, nasIp: nat, secret: string, wg: Wg)

  datatype Client = Client(nasname: nat, shortname: string, secret: string, description: string)

  datatype Tables = Tables(locations: map<string, nat>, devices: map<Uuid, Device>, nas: seq<Client>, next: nat)

  /** The short names the handlers build, from an id in whatever spelling they hold it. */
  function PublicName(id: string): string
    requires |id| >= 8
  {
    "mfb-" + id[..8]
  }

  function TunnelName(id: string): string
    requires |id| >= 8
  {
    "mfb-" + id[..8] + "-wg"
  }

  function PublicRow(id: Uuid, d: Device): Client {
    Client(d.nasIp, PublicName(id), d.secret, d.name)
  }

  function TunnelRow(id: Uuid, d: Device): Client
    requires d.wg.ip.Some?
  {
    Client(d.wg.ip.value, TunnelName(id), d.secret, d.name + " (tunnel)")
  }

  // ----- the statements on nas

  /** The rows with this shortname, in table order. */
  function Named(nas: seq<Client>, name: string): seq<Client> {
    if nas == [] then []
    else
      var front, last := nas[..|nas| - 1], nas[|nas| - 1];
      if last.shortname == name then Named(front, name) + [last] else Named(front, name)
  }

  /** DELETE FROM nas WHERE shortname IN names. */
  function Dropped(nas: seq<Client>, names: set<string>): seq<Client> {
    if nas == [] then []
    else
      var front, last := nas[..|nas| - 1], nas[|nas| - 1];
      if last.shortname in names then Dropped(front, names) else Dropped(front, names) + [last]
  }

  function Patch(c: Client, ip: Option<nat>, description: string): Client {
    c.(nasname := if ip.Some? then ip.value else c.nasname, description := description)
  }

  /** UPDATE nas SET [nasname,] description WHERE shortname = name. */
  function Patched(nas: seq<Client>, name: string, ip: Option<nat>, description: string): seq<Client> {
    if nas == [] then []
    else
      var front, last := nas[..|nas| - 1], nas[|nas| - 1];
      Patched(front, name, ip, description) + [if last.shortname == name then Patch(last, ip, description) else last]
  }

  lemma {:induction false} NamedDropped(nas: seq<Client>, names: set<string>, name: string)
    ensures Named(Dropped(nas, names), name) == if name in names then [] else Named(nas, name)
  {
    if nas != [] {
      var front, last := nas[..|nas| - 1], nas[|nas| - 1];
      NamedDropped(front, names, name);
      if last.shortname !in names {
        assert (Dropped(front, names) + [last])[..|Dropped(front, names)|] == Dropped(front, names);
      }
    }
  }

  lemma {:induction false} NamedPatched(nas: seq<Client>, target: string, ip: Option<nat>, description: string,
      name: string)
    ensures Named(Patched(nas, target, ip, description), name)
         == if name == target then Patched(Named(nas, name), target, ip, description) else Named(nas, name)
  {
    if nas != [] {
      var front, last := nas[..|nas| - 1], nas[|nas| - 1];
      NamedPatched(front, target, ip, description, name);
      var front' := Patched(front, target, ip, description);
      var last' := if last.shortname == target then Patch(last, ip, description) else last;
      assert (front' + [last'])[..|front'|] == front';
      assert (Named(front, name) + [last])[..|Named(front, name)|] == Named(front, name);
    }
  }

  /** The update changes the rows of this name in place, and no other. */
  lemma {:induction false} PatchedRows(nas: seq<Client>, name: string, ip: Option<nat>, description: string)
    ensures var nas' := Patched(nas, name, ip, description);
            && |nas'| == |nas|
            && forall i :: 0 <= i < |nas| ==>
                 nas'[i] == if nas[i].shortname != name then nas[i]
                            else if ip.Some? then nas[i].(nasname := ip.value, description := description)
                            else nas[i].(description := description)
  {
    if nas != [] {
      PatchedRows(nas[..|nas| - 1], name, ip, description);
    }
  }

  lemma {:induction false} PatchedNothing(nas: seq<Client>, name: string, ip: Option<nat>, description: string)
    requires Named(nas, name) == []
    ensures Patched(nas, name, ip, description) == nas
  {
    if nas != [] {
      PatchedNothing(nas[..|nas| - 1], name, ip, description);
    }
  }

  lemma {:induction false} DroppedNothing(nas: seq<Client>, names: set<string>)
    requires forall name :: name in names ==> Named(nas, name) == []
    ensures Dropped(nas, names) == nas
  {
    if nas != [] {
      var front, last := nas[..|nas| - 1], nas[|nas| - 1];
      forall name | name in names ensures Named(front, name) == [] && last.shortname != name {
        assert Named(nas, name) == [];
      }
      DroppedNothing(front, names);
    }
  }

  lemma NamedAppend(nas: seq<Client>, c: Client, name: string)
    ensures Named(nas + [c], name) == if c.shortname == name then Named(nas, name) + [c] else Named(nas, name)
  {
    assert (nas + [c])[..|nas|] == nas;
  }

  lemma PatchedOne(c: Client, ip: Option<nat>, description: string)
    ensures Patched([c], c.shortname, ip, description) == [Patch(c, ip, description)]
    ensures Patched([], c.shortname, ip, description) == []
  {
    assert [c][..0] == [];
  }

  // ----- the invariant

  predicate PublicOk(t: Tables, id: Uuid)
    requires id in t.devices
  {
    Named(t.nas, PublicName(id)) == [PublicRow(id, t.devices[id])]
  }

  predicate TunnelOk(t: Tables, id: Uuid)
    requires id in t.devices
  {
    var d := t.devices[id];
    Named(t.nas, TunnelName(id)) == [] || (d.wg.ip.Some? && Named(t.nas, TunnelName(id)) == [TunnelRow(id, d)])
  }

  ghost predicate Owned(devices: map<Uuid, Device>, name: string) {
    exists id :: id in devices && (name == PublicName(id) || name == TunnelName(id))
  }

  predicate WgOk(wg: Wg, next: nat) {
    wg == UNSET || (wg.ip.Some? && wg.priv.Some? && wg.pub.Some? && BASE + FIRST <= wg.ip.value < BASE + next)
  }

  predicate IpsDiffer(d: Device, e: Device) {
    d.nasIp != e.nasIp && (d.wg.ip.Some? ==> d.wg.ip != e.wg.ip)
  }

  predicate DeviceOk(t: Tables, id: Uuid)
    requires id in t.devices
  {
    PublicOk(t, id) && TunnelOk(t, id) && WgOk(t.devices[id].wg, t.next)
  }

  ghost predicate Apart(devices: map<Uuid, Device>) {
    forall id, e :: id in devices && e in devices && id != e ==> IpsDiffer(devices[id], devices[e])
  }

  ghost predicate NoStrays(t: Tables) {
    forall name :: Named(t.nas, name) != [] ==> Owned(t.devices, name)
  }

  /** nas holds exactly one public row per device, with its current address, secret and name;
      at most one tunnel row, at the stored tunnel address; and no other row. */
  ghost predicate Faithful(t: Tables) {
    && FIRST <= t.next
    && (forall id :: id in t.devices ==> DeviceOk(t, id))
    && Apart(t.devices)
    && NoStrays(t)
  }

  lemma NamesDiffer(a: string, b: string)
    requires |a| >= 8 && |b| >= 8
    ensures PublicName(a) != TunnelName(b)
    ensures a[..8] == b[..8] <==> PublicName(a) == PublicName(b)
    ensures a[..8] == b[..8] <==> TunnelName(a) == TunnelName(b)
  {
    assert |PublicName(a)| == 12 && |TunnelName(b)| == 15;
    assert PublicName(a)[4..] == a[..8] && PublicName(b)[4..] == b[..8];
    assert TunnelName(a)[4..12] == a[..8] && TunnelName(b)[4..12] == b[..8];
  }

  /** Under a faithful index the eight-character prefixes of registered ids differ. */
  lemma PrefixesDiffer(t: Tables, a: Uuid, b: Uuid)
    requires Faithful(t) && a in t.devices && b in t.devices && a != b
    ensures a[..8] != b[..8]
  {
    NamesDiffer(a, b);
    assert DeviceOk(t, a) && DeviceOk(t, b) && IpsDiffer(t.devices[a], t.devices[b]);
  }

  /** No registered id starts like this text. */
  ghost predicate PrefixFree(t: Tables, id: string)
    requires |id| >= 8
  {
    forall e :: e in t.devices ==> e[..8] != id[..8]
  }

  /** No other device has this public address. */
  predicate AddressFree(t: Tables, ip: nat, id: Uuid) {
    forall e :: e in t.devices && e != id ==> t.devices[e].nasIp != ip
  }

  // ----- the handlers

  datatype Response = BadRequest | Unprocessable | NotFound | Conflict | Done

  /** deviceByID: the id that the text sent denotes, if its device's location belongs to the tenant. */
  predicate Visible(t: Tables, id: Uuid, tenant: nat) {
    id in t.devices && t.devices[id].location in t.locations && t.locations[t.devices[id].location] == tenant
  }

  function Found(t: Tables, sent: string, tenant: nat): Option<Uuid> {
    var id := IdOf(sent);
    if id.Some? && Visible(t, id.value, tenant) then id else None
  }

  function CreateResponse(t: Tables, tenant: nat, name: string, location: string, ip: Option<nat>): Response {
    if name == "" || location == "" then BadRequest
    else if ip == None then Unprocessable
    else if location !in t.locations || t.locations[location] != tenant then NotFound
    else if exists e :: e in t.devices && t.devices[e].nasIp == ip.value then Conflict
    else Done
  }

  function Created(t: Tables, name: string, location: string, ip: nat, id: Uuid, secret: string): Tables {
    var d := Device(location, name, ip, secret, UNSET);
    t.(devices := t.devices[id := d], nas := t.nas + [PublicRow(id, d)])
  }

  function UpdateResponse(t: Tables, tenant: nat, sent: string, name: string, ip: Option<nat>): Response {
    if name == "" then BadRequest
    else if ip == None then Unprocessable
    else
      var id := Found(t, sent, tenant);
      if id == None then NotFound
      else if ip.value != t.devices[id.value].nasIp && !AddressFree(t, ip.value, id.value) then Conflict
      else Done
  }

  /** The three updates: devices by the id denoted, nas by the text sent. Without the device
      the first finds no row. */
  function Updated(t: Tables, id: Uuid, sent: string, name: string, ip: nat): Tables
    requires |sent| >= 8
  {
    t.(devices := if id in t.devices then t.devices[id := t.devices[id].(name := name, nasIp := ip)] else t.devices,
       nas := Patched(Patched(t.nas, PublicName(sent), Some(ip), name), TunnelName(sent), None, name + " (tunnel)"))
  }

  function Deleted(t: Tables, id: Uuid, sent: string): Tables
    requires |sent| >= 8
  {
    t.(devices := t.devices - {id}, nas := Dropped(t.nas, {PublicName(sent), TunnelName(sent)}))
  }

  function Provisioned(t: Tables, id: Uuid, keys: Keypair): Tables
    requires id in t.devices
  {
    var (row, next, _) := EnsureAlone(t.devices[id].wg, t.next, keys);
    t.(devices := t.devices[id := t.devices[id].(wg := row)], next := next)
  }

  /** INSERT ... WHERE NOT EXISTS of the tunnel row, from what the script read earlier. */
  function TunnelInserted(t: Tables, id: Uuid, wgIP: nat, secret: string, name: string): Tables {
    if Named(t.nas, TunnelName(id)) != [] then t
    else t.(nas := t.nas + [Client(wgIP, TunnelName(id), secret, name + " (tunnel)")])
  }

  /** The same insert when nothing has changed since. */
  function TunnelListed(t: Tables, id: Uuid): Tables
    requires id in t.devices && t.devices[id].wg.ip.Some?
  {
    TunnelInserted(t, id, t.devices[id].wg.ip.value, t.devices[id].secret, t.devices[id].name)
  }

  /** The script handler's writes when tunnels are configured. */
  function Scripted(t: Tables, id: Uuid, keys: Keypair): Tables
    requires id in t.devices
  {
    var t' := Provisioned(t, id, keys);
    if t'.devices[id].wg.ip.Some? then TunnelListed(t', id) else t'
  }

  // ----- each handler keeps the index faithful

  lemma OwnedStays(devices: map<Uuid, Device>, devices': map<Uuid, Device>, name: string)
    requires Owned(devices, name) && devices.Keys <= devices'.Keys
    ensures Owned(devices', name)
  {
    var id :| id in devices && (name == PublicName(id) || name == TunnelName(id));
    assert id in devices'.Keys;
  }

  lemma UnusedNames(t: Tables, id: string)
    requires |id| >= 8 && Faithful(t) && PrefixFree(t, id)
    ensures Named(t.nas, PublicName(id)) == [] && Named(t.nas, TunnelName(id)) == []
  {
    forall e | e in t.devices
      ensures PublicName(id) !in {PublicName(e), TunnelName(e)} && TunnelName(id) !in {PublicName(e), TunnelName(e)}
    {
      NamesDiffer(id, e);
      NamesDiffer(e, id);
    }
    assert !Owned(t.devices, PublicName(id)) && !Owned(t.devices, TunnelName(id));
  }

  lemma CreatedDeviceOk(t: Tables, id: Uuid, d: Device, e: Uuid)
    requires Named(t.nas, PublicName(id)) == [] && Named(t.nas, TunnelName(id)) == [] && d.wg == UNSET
    requires e != id ==> e in t.devices && DeviceOk(t, e) && e[..8] != id[..8]
    ensures DeviceOk(t.(devices := t.devices[id := d], nas := t.nas + [PublicRow(id, d)]), e)
  {
    NamedAppend(t.nas, PublicRow(id, d), PublicName(e));
    NamedAppend(t.nas, PublicRow(id, d), TunnelName(e));
    NamesDiffer(id, e);
  }

  lemma AppendedNoStrays(t: Tables, row: Client, devices': map<Uuid, Device>)
    requires NoStrays(t) && t.devices.Keys <= devices'.Keys && Owned(devices', row.shortname)
    ensures NoStrays(t.(nas := t.nas + [row], devices := devices'))
  {
    forall n | Named(t.nas + [row], n) != [] ensures Owned(devices', n) {
      NamedAppend(t.nas, row, n);
      if n != row.shortname {
        OwnedStays(t.devices, devices', n);
      }
    }
  }

  lemma CreatedKeepsFaithful(t: Tables, name: string, location: string, ip: nat, id: Uuid, secret: string)
    requires Faithful(t) && id !in t.devices && PrefixFree(t, id) && AddressFree(t, ip, id)
    ensures Faithful(Created(t, name, location, ip, id, secret))
  {
    var d, t' := Device(location, name, ip, secret, UNSET), Created(t, name, location, ip, id, secret);
    UnusedNames(t, id);
    forall e | e in t'.devices ensures DeviceOk(t', e) {
      CreatedDeviceOk(t, id, d, e);
    }
    assert Owned(t'.devices, PublicName(id)) by {
      assert id in t'.devices;
    }
    AppendedNoStrays(t, PublicRow(id, d), t'.devices);
  }

  /** The two inserts keep the index if and only if, when they run, no registered id shares
      the new id's prefix and no device has the address: the handler checks the second only,
      and in an earlier statement. */
  lemma CreateKeepsFaithfulIff(t: Tables, name: string, location: string, ip: nat, id: Uuid, secret: string)
    requires Faithful(t) && id !in t.devices
    ensures Faithful(Created(t, name, location, ip, id, secret)) <==> PrefixFree(t, id) && AddressFree(t, ip, id)
  {
    var t' := Created(t, name, location, ip, id, secret);
    if PrefixFree(t, id) && AddressFree(t, ip, id) {
      CreatedKeepsFaithful(t, name, location, ip, id, secret);
    } else if PrefixFree(t, id) {
      var e :| e in t.devices && e != id && t.devices[e].nasIp == ip;
      assert !IpsDiffer(t'.devices[e], t'.devices[id]);
    } else {
      var e :| e in t.devices && e[..8] == id[..8];
      if Faithful(t') {
        PrefixesDiffer(t', e, id);
        assert false;
      }
    }
  }

  lemma UpdatedDeviceOk(t: Tables, id: Uuid, name: string, ip: nat, e: Uuid)
    requires id in t.devices && e in t.devices && DeviceOk(t, e) && (e != id ==> e[..8] != id[..8])
    ensures DeviceOk(Updated(t, id, id, name, ip), e)
  {
    var once := Patched(t.nas, PublicName(id), Some(ip), name);
    var d := t.devices[e];
    NamesDiffer(id, e);
    NamesDiffer(e, id);
    forall n | n == PublicName(e) || n == TunnelName(e)
      ensures Named(Updated(t, id, id, name, ip).nas, n) ==
                if n == TunnelName(id) then Patched(Named(t.nas, n), n, None, name + " (tunnel)")
                else if n == PublicName(id) then Patched(Named(t.nas, n), n, Some(ip), name)
                else Named(t.nas, n)
    {
      NamedPatched(t.nas, PublicName(id), Some(ip), name, n);
      NamedPatched(once, TunnelName(id), None, name + " (tunnel)", n);
    }
    PatchedOne(PublicRow(e, d), Some(ip), name);
    if d.wg.ip.Some? {
      PatchedOne(TunnelRow(e, d), None, name + " (tunnel)");
    }
  }

  lemma UpdatedNoStrays(t: Tables, id: Uuid, name: string, ip: nat)
    requires NoStrays(t) && id in t.devices
    ensures NoStrays(Updated(t, id, id, name, ip))
  {
    var t', once := Updated(t, id, id, name, ip), Patched(t.nas, PublicName(id), Some(ip), name);
    forall n | Named(t'.nas, n) != [] ensures Owned(t'.devices, n) {
      NamedPatched(t.nas, PublicName(id), Some(ip), name, n);
      NamedPatched(once, TunnelName(id), None, name + " (tunnel)", n);
      assert Named(t.nas, n) != [];
      OwnedStays(t.devices, t'.devices, n);
    }
  }

  lemma UpdatedKeepsFaithful(t: Tables, id: Uuid, name: string, ip: nat)
    requires Faithful(t) && id in t.devices && AddressFree(t, ip, id)
    ensures Faithful(Updated(t, id, id, name, ip))
  {
    var t' := Updated(t, id, id, name, ip);
    forall e | e in t'.devices ensures DeviceOk(t', e) {
      assert DeviceOk(t, e);
      if e != id {
        PrefixesDiffer(t, e, id);
      }
      UpdatedDeviceOk(t, id, name, ip, e);
    }
    UpdatedNoStrays(t, id, name, ip);
  }

  /** A text that denotes an id starts like it, or like no registered id at all. */
  lemma OtherSpelling(t: Tables, id: Uuid, sent: string)
    requires IdOf(sent) == Some(id) && sent[..8] != id[..8]
    ensures PrefixFree(t, sent)
  {
    SpelledPrefix(sent);
    forall e: Uuid | e in t.devices ensures e[..8] != sent[..8] {
      PrefixIsHex(e);
    }
  }

  lemma UpdatedElsewhere(t: Tables, id: Uuid, sent: string, name: string, ip: nat)
    requires |sent| >= 8 && Faithful(t) && PrefixFree(t, sent)
    ensures Updated(t, id, sent, name, ip).nas == t.nas
  {
    UnusedNames(t, sent);
    PatchedNothing(t.nas, PublicName(sent), Some(ip), name);
    PatchedNothing(t.nas, TunnelName(sent), None, name + " (tunnel)");
  }

  lemma UpdatedElsewhereIff(t: Tables, id: Uuid, sent: string, name: string, ip: nat)
    requires |sent| >= 8 && Faithful(t) && PrefixFree(t, sent) && id in t.devices
    ensures Faithful(Updated(t, id, sent, name, ip)) <==> name == t.devices[id].name && ip == t.devices[id].nasIp
  {
    var t', d := Updated(t, id, sent, name, ip), t.devices[id];
    UpdatedElsewhere(t, id, sent, name, ip);
    assert DeviceOk(t, id);
    if name == d.name && ip == d.nasIp {
      assert t'.devices == t.devices;
      assert t' == t;
    } else {
      assert PublicRow(id, t'.devices[id]) != PublicRow(id, d);
      assert !PublicOk(t', id);
    }
  }

  /** The updates address the rows of this device, or have nothing to change in them. */
  predicate UpdateReaches(t: Tables, id: Uuid, sent: string, name: string, ip: nat)
    requires |sent| >= 8 && id in t.devices
  {
    sent[..8] == id[..8] || (name == t.devices[id].name && ip == t.devices[id].nasIp)
  }

  /** The updates keep the index if and only if, when they run, no other device has the address,
      and the text sent starts like the id, or name and address are the old ones. */
  lemma UpdatedKeepsFaithfulIff(t: Tables, id: Uuid, sent: string, name: string, ip: nat)
    requires Faithful(t) && id in t.devices && IdOf(sent) == Some(id)
    ensures Faithful(Updated(t, id, sent, name, ip)) <==> AddressFree(t, ip, id) && UpdateReaches(t, id, sent, name, ip)
  {
    var t' := Updated(t, id, sent, name, ip);
    if !AddressFree(t, ip, id) {
      var e :| e in t.devices && e != id && t.devices[e].nasIp == ip;
      assert !IpsDiffer(t'.devices[e], t'.devices[id]);
    } else if sent[..8] == id[..8] {
      assert PublicName(sent) == PublicName(id) && TunnelName(sent) == TunnelName(id);
      UpdatedKeepsFaithful(t, id, name, ip);
    } else {
      OtherSpelling(t, id, sent);
      UpdatedElsewhereIff(t, id, sent, name, ip);
    }
  }

  /** The address check of the update handler, skipped for an unchanged address, suffices. */
  lemma UpdateCheckSuffices(t: Tables, tenant: nat, sent: string, name: string, ip: nat)
    requires Faithful(t) && UpdateResponse(t, tenant, sent, name, Some(ip)) == Done
    ensures IdOf(sent).Some? && AddressFree(t, ip, IdOf(sent).value)
  {
    var id := IdOf(sent).value;
    forall e | e in t.devices && e != id ensures t.devices[e].nasIp != ip {
      assert IpsDiffer(t.devices[e], t.devices[id]);
    }
  }

  lemma DeletedDeviceOk(t: Tables, id: Uuid, e: Uuid)
    requires e in t.devices && DeviceOk(t, e) && e[..8] != id[..8] && e != id
    ensures DeviceOk(Deleted(t, id, id), e)
  {
    var names := {PublicName(id), TunnelName(id)};
    NamesDiffer(id, e);
    NamesDiffer(e, id);
    NamedDropped(t.nas, names, PublicName(e));
    NamedDropped(t.nas, names, TunnelName(e));
  }

  lemma DeletedKeepsFaithful(t: Tables, id: Uuid)
    requires Faithful(t) && id in t.devices
    ensures Faithful(Deleted(t, id, id))
  {
    var t', names := Deleted(t, id, id), {PublicName(id), TunnelName(id)};
    forall e | e in t'.devices ensures DeviceOk(t', e) {
      assert DeviceOk(t, e);
      PrefixesDiffer(t, e, id);
      DeletedDeviceOk(t, id, e);
    }
    forall n | Named(t'.nas, n) != [] ensures Owned(t'.devices, n) {
      NamedDropped(t.nas, names, n);
      assert Owned(t.devices, n);
      var e :| e in t.devices && (n == PublicName(e) || n == TunnelName(e));
      assert e in t'.devices;
    }
  }

  lemma DeletedElsewhere(t: Tables, id: Uuid, sent: string)
    requires |sent| >= 8 && Faithful(t) && PrefixFree(t, sent) && id in t.devices
    ensures Deleted(t, id, sent).nas == t.nas && Named(t.nas, PublicName(id)) == [PublicRow(id, t.devices[id])]
    ensures !Faithful(Deleted(t, id, sent))
  {
    var t' := Deleted(t, id, sent);
    UnusedNames(t, sent);
    DroppedNothing(t.nas, {PublicName(sent), TunnelName(sent)});
    assert DeviceOk(t, id);
    forall e | e in t'.devices ensures PublicName(id) !in {PublicName(e), TunnelName(e)} {
      PrefixesDiffer(t, e, id);
      NamesDiffer(id, e);
    }
    assert !Owned(t'.devices, PublicName(id));
  }

  /** A deletion keeps the index if and only if the text sent starts like the id. */
  lemma DeletedKeepsFaithfulIff(t: Tables, id: Uuid, sent: string)
    requires Faithful(t) && id in t.devices && IdOf(sent) == Some(id)
    ensures Faithful(Deleted(t, id, sent)) <==> sent[..8] == id[..8]
  {
    var t' := Deleted(t, id, sent);
    if sent[..8] == id[..8] {
      assert PublicName(sent) == PublicName(id) && TunnelName(sent) == TunnelName(id);
      DeletedKeepsFaithful(t, id);
    } else {
      OtherSpelling(t, id, sent);
      DeletedElsewhere(t, id, sent);
    }
  }

  lemma ProvisionedKeepsFaithful(t: Tables, id: Uuid, keys: Keypair)
    requires Faithful(t) && id in t.devices
    ensures Faithful(Provisioned(t, id, keys)) && Provisioned(t, id, keys).devices[id].wg.ip.Some?
  {
    var t' := Provisioned(t, id, keys);
    forall e | e in t'.devices ensures DeviceOk(t', e) {
      assert DeviceOk(t, e);
    }
    assert DeviceOk(t, id);
    forall a, b | a in t'.devices && b in t'.devices && a != b ensures IpsDiffer(t'.devices[a], t'.devices[b]) {
      assert IpsDiffer(t.devices[a], t.devices[b]) && DeviceOk(t, a) && DeviceOk(t, b);
    }
    forall n | Named(t'.nas, n) != [] ensures Owned(t'.devices, n) {
      OwnedStays(t.devices, t'.devices, n);
    }
  }

  lemma TunnelListedKeepsFaithful(t: Tables, id: Uuid)
    requires Faithful(t) && id in t.devices && t.devices[id].wg.ip.Some?
    ensures Faithful(TunnelListed(t, id))
    ensures Named(TunnelListed(t, id).nas, TunnelName(id)) == [TunnelRow(id, t.devices[id])]
  {
    assert DeviceOk(t, id);
    var row, t' := TunnelRow(id, t.devices[id]), TunnelListed(t, id);
    if Named(t.nas, TunnelName(id)) == [] {
      forall e | e in t'.devices ensures DeviceOk(t', e) {
        assert DeviceOk(t, e);
        NamedAppend(t.nas, row, PublicName(e));
        NamedAppend(t.nas, row, TunnelName(e));
        NamesDiffer(e, id);
        if e != id {
          PrefixesDiffer(t, e, id);
        }
      }
      NamedAppend(t.nas, row, TunnelName(id));
      AppendedNoStrays(t, row, t.devices);
    }
  }

  lemma SameDescription(a: string, b: string)
    ensures a + " (tunnel)" == b + " (tunnel)" ==> a == b
  {
    if a + " (tunnel)" == b + " (tunnel)" {
      assert (a + " (tunnel)")[..|a|] == a && (b + " (tunnel)")[..|b|] == b;
    }
  }

  /** The script's insert keeps the index if and only if, when it runs, the device is still
      registered and either has its tunnel row already or is as the script read it. */
  lemma TunnelInsertedFaithfulIff(t: Tables, id: Uuid, wgIP: nat, secret: string, name: string)
    requires Faithful(t) && (id in t.devices || PrefixFree(t, id))
    ensures Faithful(TunnelInserted(t, id, wgIP, secret, name)) <==>
              && id in t.devices
              && (Named(t.nas, TunnelName(id)) != []
                  || (t.devices[id].wg.ip == Some(wgIP)
                      && t.devices[id].secret == secret && t.devices[id].name == name))
  {
    var t' := TunnelInserted(t, id, wgIP, secret, name);
    NamedAppend(t.nas, Client(wgIP, TunnelName(id), secret, name + " (tunnel)"), TunnelName(id));
    if id !in t.devices {
      UnusedNames(t, id);
      forall e | e in t.devices ensures TunnelName(id) !in {PublicName(e), TunnelName(e)} {
        NamesDiffer(id, e);
        NamesDiffer(e, id);
      }
      assert !Owned(t'.devices, TunnelName(id));
    } else if Named(t.nas, TunnelName(id)) == [] {
      SameDescription(t.devices[id].name, name);
      if t.devices[id].wg.ip == Some(wgIP) && t.devices[id].secret == secret && t.devices[id].name == name {
        TunnelListedKeepsFaithful(t, id);
      } else {
        assert !TunnelOk(t', id);
      }
    }
  }

  lemma ScriptedKeepsFaithful(t: Tables, id: Uuid, keys: Keypair)
    requires Faithful(t) && id in t.devices
    ensures Faithful(Scripted(t, id, keys)) && Scripted(t, id, keys).devices[id].wg.ip.Some?
    ensures Named(Scripted(t, id, keys).nas, TunnelName(id)) == [TunnelRow(id, Scripted(t, id, keys).devices[id])]
  {
    ProvisionedKeepsFaithful(t, id, keys);
    TunnelListedKeepsFaithful(Provisioned(t, id, keys), id);
  }

  // ----- runs

  /** A request: `sent` is the id as the client spelled it; the new id, the secret and the keypair
      are drawn while the request is served. */
  datatype Request =
    | Create(tenant: nat, name: string, location: string, ip: Option<nat>, id: Uuid, secret: string)
    | Update(tenant: nat, sent: string, name: string, ip: Option<nat>)
    | Delete(tenant: nat, sent: string)
    | Script(tenant: nat, sent: string, tunnels: bool, keys: Keypair)

  predicate NewIds(t: Tables, q: Request) {
    q.Create? ==> q.id !in t.devices
  }

  function Respond(t: Tables, q: Request): Response {
    match q
    case Create(tenant, name, location, ip, _, _) => CreateResponse(t, tenant, name, location, ip)
    case Update(tenant, sent, name, ip) => UpdateResponse(t, tenant, sent, name, ip)
    case Delete(tenant, sent) => if Found(t, sent, tenant).Some? then Done else NotFound
    case Script(tenant, sent, _, _) => if Found(t, sent, tenant).Some? then Done else NotFound
  }

  function Next(t: Tables, q: Request): Tables {
    if Respond(t, q) != Done then t
    else match q
      case Create(_, name, location, ip, id, secret) => Created(t, name, location, ip.value, id, secret)
      case Update(_, sent, name, ip) => Updated(t, IdOf(sent).value, sent, name, ip.value)
      case Delete(_, sent) => Deleted(t, IdOf(sent).value, sent)
      case Script(_, sent, tunnels, keys) => if tunnels then Scripted(t, IdOf(sent).value, keys) else t
  }

  /** The short names the request builds are those of its own device: the first eight characters
      are new for a new device, and the id's own for an update or a deletion. */
  ghost predicate WellAddressed(t: Tables, q: Request) {
    Respond(t, q) == Done ==>
      match q
      case Create(_, _, _, _, id, _) => PrefixFree(t, id)
      case Update(_, sent, name, ip) => UpdateReaches(t, IdOf(sent).value, sent, name, ip.value)
      case Delete(_, sent) => sent[..8] == IdOf(sent).value[..8]
      case Script(_, _, _, _) => true
  }

  /** A request keeps the index if and only if it is well addressed. */
  lemma RequestFaithfulIff(t: Tables, q: Request)
    requires Faithful(t) && NewIds(t, q)
    ensures Faithful(Next(t, q)) <==> WellAddressed(t, q)
  {
    if Respond(t, q) == Done {
      match q
      case Create(_, name, location, ip, id, secret) => CreateKeepsFaithfulIff(t, name, location, ip.value, id, secret);
      case Update(tenant, sent, name, ip) =>
        UpdateCheckSuffices(t, tenant, sent, name, ip.value);
        UpdatedKeepsFaithfulIff(t, IdOf(sent).value, sent, name, ip.value);
      case Delete(_, sent) => DeletedKeepsFaithfulIff(t, IdOf(sent).value, sent);
      case Script(_, sent, tunnels, keys) =>
        if tunnels {
          ScriptedKeepsFaithful(t, IdOf(sent).value, keys);
        }
    }
  }

  ghost predicate WellAddressedRun(t: Tables, requests: seq<Request>)
    decreases |requests|
  {
    requests == [] ||
    (NewIds(t, requests[0]) && WellAddressed(t, requests[0]) && WellAddressedRun(Next(t, requests[0]), requests[1..]))
  }

  function Run(t: Tables, requests: seq<Request>): Tables
    decreases |requests|
  {
    if requests == [] then t else Run(Next(t, requests[0]), requests[1..])
  }

  function Empty(locations: map<string, nat>): Tables {
    Tables(locations, map[], [], FIRST)
  }

  /** Over every run of well-addressed requests the index stays faithful. */
  lemma {:induction false} RunKeepsFaithful(t: Tables, requests: seq<Request>)
    requires Faithful(t) && WellAddressedRun(t, requests)
    ensures Faithful(Run(t, requests))
    decreases |requests|
  {
    if requests != [] {
      RequestFaithfulIff(t, requests[0]);
      RunKeepsFaithful(Next(t, requests[0]), requests[1..]);
    }
  }

  /** What the index says of a device: one row at its public address under its short name, at most
      one at its tunnel address under the other, both with its own secret and name, and no other
      device at that public address. */
  predicate Indexed(t: Tables, id: Uuid)
    requires id in t.devices
  {
    var d, name := t.devices[id], "mfb-" + id[..8];
    && Named(t.nas, name) == [Client(d.nasIp, name, d.secret, d.name)]
    && (Named(t.nas, name + "-wg") == []
        || (d.wg.ip.Some?
            && Named(t.nas, name + "-wg") == [Client(d.wg.ip.value, name + "-wg", d.secret, d.name + " (tunnel)")]))
    && forall e :: e in t.devices && e != id ==> t.devices[e].nasIp != d.nasIp
  }

  /** The row is one of a registered device's two. */
  ghost predicate OfDevice(t: Tables, row: Client) {
    exists id :: id in t.devices && (row.shortname == "mfb-" + id[..8] || row.shortname == "mfb-" + id[..8] + "-wg")
  }

  lemma FaithfulIndexes(t: Tables, id: Uuid)
    requires Faithful(t) && id in t.devices
    ensures Indexed(t, id)
  {
    assert DeviceOk(t, id);
    forall e | e in t.devices && e != id ensures t.devices[e].nasIp != t.devices[id].nasIp {
      assert IpsDiffer(t.devices[e], t.devices[id]);
    }
  }

  lemma {:induction false} RowsAreNamed(nas: seq<Client>, i: nat)
    requires i < |nas|
    ensures nas[i] in Named(nas, nas[i].shortname)
  {
    if i < |nas| - 1 {
      RowsAreNamed(nas[..|nas| - 1], i);
    }
  }

  /** Which device a row is for. */
  lemma RowOwner(t: Tables, i: nat) returns (id: Uuid)
    requires Faithful(t) && i < |t.nas|
    ensures id in t.devices && DeviceOk(t, id)
    ensures t.nas[i] == PublicRow(id, t.devices[id])
      || (t.devices[id].wg.ip.Some? && t.nas[i] == TunnelRow(id, t.devices[id]) && Named(t.nas, TunnelName(id)) != [])
  {
    RowsAreNamed(t.nas, i);
    assert Owned(t.devices, t.nas[i].shortname);
    id :| id in t.devices && (t.nas[i].shortname == PublicName(id) || t.nas[i].shortname == TunnelName(id));
    assert DeviceOk(t, id);
  }

  lemma FaithfulOwns(t: Tables, i: nat)
    requires Faithful(t) && i < |t.nas|
    ensures OfDevice(t, t.nas[i])
  {
    var id := RowOwner(t, i);
    assert t.nas[i].shortname == "mfb-" + id[..8] || t.nas[i].shortname == "mfb-" + id[..8] + "-wg";
  }

  /** Over every run of well-addressed requests, every registered device is indexed, and every
      row of nas belongs to a registered device. */
  lemma IndexOverRuns(locations: map<string, nat>, requests: seq<Request>)
    requires WellAddressedRun(Empty(locations), requests)
    ensures var t := Run(Empty(locations), requests);
            && (forall id :: id in t.devices ==> Indexed(t, id))
            && (forall i :: 0 <= i < |t.nas| ==> OfDevice(t, t.nas[i]))
  {
    RunKeepsFaithful(Empty(locations), requests);
    var t := Run(Empty(locations), requests);
    forall id | id in t.devices ensures Indexed(t, id) {
      FaithfulIndexes(t, id);
    }
    forall i | 0 <= i < |t.nas| ensures OfDevice(t, t.nas[i]) {
      FaithfulOwns(t, i);
    }
  }

  /** The text sent denotes a device at one of the tenant's own locations. */
  predicate Owns(t: Tables, sent: string, tenant: nat) {
    var id := IdOf(sent);
    && id.Some? && id.value in t.devices
    && t.devices[id.value].location in t.locations && t.locations[t.devices[id.value].location] == tenant
  }

  /** A tenant reaches nobody else's routers: such an update, deletion or script, and a creation at
      somebody else's location, is refused and changes nothing. */
  lemma OthersUntouched(t: Tables, q: Request)
    requires if q.Create? then q.location !in t.locations || t.locations[q.location] != q.tenant
             else !Owns(t, q.sent, q.tenant)
    ensures Next(t, q) == t && Respond(t, q) != Done
    ensures Respond(t, q) ==
              if (q.Create? && (q.name == "" || q.location == "")) || (q.Update? && q.name == "") then BadRequest
              else if (q.Create? || q.Update?) && q.ip == None then Unprocessable
              else NotFound
  {
  }

  /** The id in upper case is accepted: unless its first eight characters are all digits, the
      deletion removes the device and leaves its row, with the secret, in nas. */
  lemma UpperCaseDeletion(t: Tables, tenant: nat, id: Uuid)
    requires Faithful(t) && Visible(t, id, tenant) && exists i :: 0 <= i < 8 && !('0' <= id[i] <= '9')
    ensures var t' := Next(t, Request.Delete(tenant, Uppered(id)));
            && Respond(t, Request.Delete(tenant, Uppered(id))) == Done
            && id !in t'.devices && Named(t'.nas, PublicName(id)) == [PublicRow(id, t.devices[id])]
            && !Faithful(t')
  {
    var sent := Uppered(id);
    UpperCaseSpelling(id);
    OtherSpelling(t, id, sent);
    DeletedElsewhere(t, id, sent);
    assert Found(t, sent, tenant) == Some(id);
    assert Next(t, Request.Delete(tenant, sent)) == Deleted(t, id, sent);
  }

  /** Likewise an update of name or address leaves the old row in nas. */
  lemma UpperCaseUpdate(t: Tables, tenant: nat, id: Uuid, name: string, ip: nat)
    requires Faithful(t) && Visible(t, id, tenant) && exists i :: 0 <= i < 8 && !('0' <= id[i] <= '9')
    requires name != "" && AddressFree(t, ip, id) && (name != t.devices[id].name || ip != t.devices[id].nasIp)
    ensures var t' := Next(t, Update(tenant, Uppered(id), name, Some(ip)));
            && t'.devices[id].name == name && t'.devices[id].nasIp == ip
            && Named(t'.nas, PublicName(id)) == [PublicRow(id, t.devices[id])]
            && !Faithful(t')
  {
    UpperCaseSpelling(id);
    OtherSpelling(t, id, Uppered(id));
    UpdatedElsewhere(t, id, Uppered(id), name, ip);
    UpdatedElsewhereIff(t, id, Uppered(id), name, ip);
    assert DeviceOk(t, id);
    assert Found(t, Uppered(id), tenant) == Some(id);
    assert Next(t, Update(tenant, Uppered(id), name, Some(ip))) == Updated(t, id, Uppered(id), name, ip);
  }

  // ----- one RADIUS client per address

  lemma {:induction false} NamedAreRows(nas: seq<Client>, name: string, c: Client) returns (i: nat)
    requires c in Named(nas, name)
    ensures i < |nas| && nas[i] == c && c.shortname == name
  {
    var last := |nas| - 1;
    if nas[last].shortname == name && c == nas[last] {
      i := last;
    } else {
      i := NamedAreRows(nas[..last], name, c);
    }
  }

  lemma {:induction false} SameNameTwice(nas: seq<Client>, i: nat, j: nat)
    requires i < j < |nas| && nas[i].shortname == nas[j].shortname
    ensures |Named(nas, nas[i].shortname)| >= 2
  {
    var front, name := nas[..|nas| - 1], nas[i].shortname;
    if j < |nas| - 1 {
      SameNameTwice(front, i, j);
    } else {
      RowsAreNamed(front, i);
      assert Named(front, name) != [];
    }
  }

  /** No device's public address is an installed tunnel address. */
  predicate NoClash(t: Tables) {
    forall a, b :: a in t.devices && b in t.devices && Named(t.nas, TunnelName(b)) != [] ==>
      t.devices[b].wg.ip != Some(t.devices[a].nasIp)
  }

  predicate OneClientPerAddress(nas: seq<Client>) {
    forall i, j :: 0 <= i < j < |nas| ==> nas[i].nasname != nas[j].nasname
  }

  lemma DistinctIfNoClash(t: Tables, i: nat, j: nat)
    requires Faithful(t) && NoClash(t) && i < j < |t.nas|
    ensures t.nas[i].nasname != t.nas[j].nasname
  {
    var a := RowOwner(t, i);
    var b := RowOwner(t, j);
    if t.nas[i].shortname == t.nas[j].shortname {
      SameNameTwice(t.nas, i, j);
    }
    assert a != b ==> IpsDiffer(t.devices[a], t.devices[b]) && IpsDiffer(t.devices[b], t.devices[a]);
  }

  lemma ClashRepeats(t: Tables, a: Uuid, b: Uuid)
    requires Faithful(t) && a in t.devices && b in t.devices && Named(t.nas, TunnelName(b)) != []
    requires t.devices[b].wg.ip == Some(t.devices[a].nasIp)
    ensures !OneClientPerAddress(t.nas)
  {
    assert DeviceOk(t, a) && DeviceOk(t, b);
    var i := NamedAreRows(t.nas, PublicName(a), PublicRow(a, t.devices[a]));
    var j := NamedAreRows(t.nas, TunnelName(b), TunnelRow(b, t.devices[b]));
    NamesDiffer(a, b);
  }

  /** FreeRADIUS keys clients by source address. The handlers only compare public addresses,
      so the table has one client per address exactly when no registered public address is
      also the tunnel address of an installed tunnel row. */
  lemma OneClientPerAddressIff(t: Tables)
    requires Faithful(t)
    ensures OneClientPerAddress(t.nas) <==> NoClash(t)
  {
    if NoClash(t) {
      forall i, j | 0 <= i < j < |t.nas| ensures t.nas[i].nasname != t.nas[j].nasname {
        DistinctIfNoClash(t, i, j);
      }
    } else {
      var a, b :| a in t.devices && b in t.devices && Named(t.nas, TunnelName(b)) != []
        && t.devices[b].wg.ip == Some(t.devices[a].nasIp);
      ClashRepeats(t, a, b);
    }
  }

  /** Refusing public addresses inside 10.77.0.0/16 would be enough while the sequence is. */
  lemma OutsideBlockSuffices(t: Tables)
    requires Faithful(t) && t.next <= BLOCK
    requires forall a :: a in t.devices ==> t.devices[a].nasIp / BLOCK != BASE / BLOCK
    ensures OneClientPerAddress(t.nas)
  {
    forall a, b | a in t.devices && b in t.devices && Named(t.nas, TunnelName(b)) != []
      ensures t.devices[b].wg.ip != Some(t.devices[a].nasIp)
    {
      assert DeviceOk(t, b);
    }
    OneClientPerAddressIff(t);
  }

  lemma FirstScriptAddress(t: Tables, id: Uuid, keys: Keypair)
    requires id in t.devices && t.devices[id].wg == UNSET
    ensures Scripted(t, id, keys).devices == t.devices[id := t.devices[id].(wg := Filled(Write(t.next, keys)))]
  {
  }

  lemma SharedAddress(t: Tables, t': Tables, a: Uuid, id: Uuid, keys: Keypair)
    requires Faithful(t') && Named(t'.nas, TunnelName(id)) != [] && a in t.devices && id in t.devices
    requires t'.devices == t.devices[id := t.devices[id].(wg := Filled(Write(t.next, keys)))]
    requires t.devices[a].nasIp == BASE + t.next
    ensures !OneClientPerAddress(t'.nas)
  {
    assert t'.devices[a].nasIp == BASE + t.next && t'.devices[id].wg.ip == Some(BASE + t.next);
    ClashRepeats(t', a, id);
  }

  /** A device's first script repeats any public address that is next in the sequence. */
  lemma NextAddressClashes(t: Tables, a: Uuid, id: Uuid, keys: Keypair)
    requires Faithful(t) && a in t.devices && id in t.devices
    requires t.devices[id].wg == UNSET && t.devices[a].nasIp == BASE + t.next
    ensures !OneClientPerAddress(Scripted(t, id, keys).nas)
  {
    ScriptedKeepsFaithful(t, id, keys);
    FirstScriptAddress(t, id, keys);
    SharedAddress(t, Scripted(t, id, keys), a, id, keys);
  }

  /** And the handler accepts such an address: 10.77.0.10 for the first router of all. */
  lemma PublicAddressInBlockAccepted(locations: map<string, nat>, location: string, name: string, id: Uuid,
      secret: string, keys: Keypair)
    requires name != "" && location != "" && location in locations
    ensures var t, create :=
              Empty(locations), Create(locations[location], name, location, Some(BASE + FIRST), id, secret);
            Respond(t, create) == Done
              && !OneClientPerAddress(Scripted(Created(t, name, location, BASE + FIRST, id, secret), id, keys).nas)
  {
    CreatedKeepsFaithful(Empty(locations), name, location, BASE + FIRST, id, secret);
    NextAddressClashes(Created(Empty(locations), name, location, BASE + FIRST, id, secret), id, id, keys);
  }
}
