/** The router handlers as statements over devices and nas, each proved to do what module
    Registry says of it and to keep the index faithful. */
module RegistryHandlers {
  import opened Wrappers
  import opened Tunnel
  import opened Registry
  import opened Uuids

  class Store {
    const locations: map<string, nat>
    var devices: map<Uuid, Device>
    var nas: seq<Client>
    var wgSeq: nat

    ghost function Value(): Tables
      reads this
    {
      Tables(locations, devices, nas, wgSeq)
    }

    ghost predicate Valid()
      reads this
    {
      Faithful(Value())
    }

    /** The answer is the stored identity of this device. */
    predicate Carried(id: Option<Uuid>, tunnel: (nat, Option<nat>))
      reads this
    {
      && id.Some? && id.value in devices
      && devices[id.value].wg.ip == Some(tunnel.0) && devices[id.value].wg.priv == tunnel.1
    }

    predicate OnlyTunnelRow(id: Option<Uuid>)
      reads this
    {
      && id.Some? && id.value in devices && devices[id.value].wg.ip.Some?
      && Named(nas, TunnelName(id.value)) == [TunnelRow(id.value, devices[id.value])]
    }

    constructor (locations: map<string, nat>)
      ensures Valid() && Value() == Registry.Empty(locations)
    {
      this.locations, devices, nas, wgSeq := locations, map[], [], FIRST;
    }

    /** The row found carries its id as the database writes it, however it was spelled. */
    method DeviceByID(sent: string, tenant: nat) returns (d: Option<(Uuid, Device)>)
      ensures d == match Found(Value(), sent, tenant) case Some(id) => Some((id, devices[id])) case None => None
      ensures d.Some? <==> Owns(Value(), sent, tenant)
      ensures d.Some? ==> IdOf(sent) == Some(d.value.0) && d.value.1 == devices[d.value.0]
    {
      var id := IdOf(sent);
      if id == None || id.value !in devices {
        return None;
      }
      var row := devices[id.value];
      if row.location !in locations || locations[row.location] != tenant {
        return None;
      }
      d := Some((id.value, row));
    }

    method CreateDevice(tenant: nat, name: string, location: string, ip: Option<nat>, id: Uuid, secret: string)
      returns (r: Response)
      requires id !in devices && PrefixFree(Value(), id)
      modifies this`devices, this`nas
      ensures old(Valid()) ==> Valid()
      ensures r == Respond(old(Value()), Create(tenant, name, location, ip, id, secret))
      ensures Value() == Registry.Next(old(Value()), Create(tenant, name, location, ip, id, secret))
      ensures r == if name == "" || location == "" then BadRequest
                   else if ip == None then Unprocessable
                   else if location !in locations || locations[location] != tenant then NotFound
                   else if exists e :: e in old(devices) && old(devices)[e].nasIp == ip.value then Conflict
                   else Done
      ensures devices == if r == Done
                         then old(devices)[id := Device(location, name, ip.value, secret, Wg(None, None, None))]
                         else old(devices)
      ensures nas == if r == Done then old(nas) + [Client(ip.value, "mfb-" + id[..8], secret, name)] else old(nas)
    {
      ghost var was := Value();
      if name == "" || location == "" {
        return BadRequest;
      }
      if ip == None {
        return Unprocessable;
      }
      if location !in locations || locations[location] != tenant {
        return NotFound;
      }
      var ipTaken := exists e :: e in devices && devices[e].nasIp == ip.value;
      if ipTaken {
        return Conflict;
      }
      devices := devices[id := Device(location, name, ip.value, secret, UNSET)];
      var shortname := "mfb-" + id[..8];
      nas := nas + [Client(ip.value, shortname, secret, name)];
      if Faithful(was) {
        CreatedKeepsFaithful(was, name, location, ip.value, id, secret);
      }
      r := Done;
    }

    /** The rows of this short name have the new address and name, those of its tunnel the new name;
        all others, and all secrets, are as they were. */
    static predicate Relabelled(before: seq<Client>, after: seq<Client>, shortname: string, ip: nat, name: string) {
      && |after| == |before|
      && forall i :: 0 <= i < |before| ==>
           after[i] == if before[i].shortname == shortname then before[i].(nasname := ip, description := name)
                       else if before[i].shortname == shortname + "-wg"
                       then before[i].(description := name + " (tunnel)")
                       else before[i]
    }

    lemma PatchedTwice(rows: seq<Client>, sent: string, ip: nat, name: string)
      requires |sent| >= 8
      ensures Relabelled(rows, Patched(Patched(rows, PublicName(sent), Some(ip), name),
                                       TunnelName(sent), None, name + " (tunnel)"), "mfb-" + sent[..8], ip, name)
    {
      PatchedRows(rows, PublicName(sent), Some(ip), name);
      PatchedRows(Patched(rows, PublicName(sent), Some(ip), name), TunnelName(sent), None, name + " (tunnel)");
    }

    /** The update's transaction. */
    method Rename(id: Uuid, sent: string, name: string, ip: nat)
      requires id in devices && |sent| >= 8
      modifies this`devices, this`nas
      ensures Value() == Updated(old(Value()), id, sent, name, ip)
      ensures devices == old(devices)[id := old(devices)[id].(name := name, nasIp := ip)]
      ensures Relabelled(old(nas), nas, "mfb-" + sent[..8], ip, name)
    {
      PatchedTwice(nas, sent, ip, name);
      devices := devices[id := devices[id].(name := name, nasIp := ip)];
      nas := Patched(nas, PublicName(sent), Some(ip), name);
      nas := Patched(nas, TunnelName(sent), None, name + " (tunnel)");
    }

    /** devices is updated by the id denoted, nas by the text sent. */
    method UpdateDevice(tenant: nat, sent: string, name: string, ip: Option<nat>) returns (r: Response)
      modifies this`devices, this`nas
      ensures r == Respond(old(Value()), Update(tenant, sent, name, ip))
      ensures Value() == Registry.Next(old(Value()), Update(tenant, sent, name, ip))
      ensures old(Valid()) ==> (Valid() <==> WellAddressed(old(Value()), Update(tenant, sent, name, ip)))
      ensures r == if name == "" then BadRequest
                   else if ip == None then Unprocessable
                   else if !Owns(old(Value()), sent, tenant) then NotFound
                   else if ip.value != old(devices)[IdOf(sent).value].nasIp
                           && !AddressFree(old(Value()), ip.value, IdOf(sent).value)
                   then Conflict
                   else Done
      ensures r == Done ==>
                var id := IdOf(sent).value;
                && devices == old(devices)[id := old(devices)[id].(name := name, nasIp := ip.value)]
                && Relabelled(old(nas), nas, "mfb-" + sent[..8], ip.value, name)
      ensures r != Done ==> devices == old(devices) && nas == old(nas)
    {
      ghost var was, request := Value(), Update(tenant, sent, name, ip);
      if Faithful(was) {
        RequestFaithfulIff(was, request);
      }
      if name == "" {
        return BadRequest;
      }
      if ip == None {
        return Unprocessable;
      }
      var d := DeviceByID(sent, tenant);
      if d == None {
        return NotFound;
      }
      var id := d.value.0;
      if ip.value != d.value.1.nasIp {
        var ipTaken := exists e :: e in devices && e != id && devices[e].nasIp == ip.value;
        if ipTaken {
          return Conflict;
        }
      }
      Rename(id, sent, name, ip.value);
      r := Done;
    }

    method DeleteDevice(tenant: nat, sent: string) returns (r: Response)
      modifies this`devices, this`nas
      ensures r == Respond(old(Value()), Request.Delete(tenant, sent))
      ensures Value() == Registry.Next(old(Value()), Request.Delete(tenant, sent))
      ensures old(Valid()) ==> (Valid() <==> WellAddressed(old(Value()), Request.Delete(tenant, sent)))
      ensures r == if Owns(old(Value()), sent, tenant) then Done else NotFound
      ensures r == Done ==>
                && devices == old(devices) - {IdOf(sent).value}
                && forall n :: Named(nas, n) == if n in {"mfb-" + sent[..8], "mfb-" + sent[..8] + "-wg"} then []
                                                else Named(old(nas), n)
      ensures r != Done ==> devices == old(devices) && nas == old(nas)
    {
      ghost var was, request := Value(), Request.Delete(tenant, sent);
      if Faithful(was) {
        RequestFaithfulIff(was, request);
      }
      var d := DeviceByID(sent, tenant);
      if d == None {
        return NotFound;
      }
      forall n ensures Named(Dropped(nas, {PublicName(sent), TunnelName(sent)}), n)
                       == if n in {PublicName(sent), TunnelName(sent)} then [] else Named(nas, n) {
        NamedDropped(nas, {PublicName(sent), TunnelName(sent)}, n);
      }
      nas := Dropped(nas, {PublicName(sent), TunnelName(sent)});
      devices := devices - {d.value.0};
      r := Done;
    }

    /** The read, the keypair with the compare-and-set, and the re-read, uninterrupted. */
    method EnsureWG(id: Uuid, keys: Keypair) returns (found: Option<(nat, Option<nat>)>)
      modifies this`devices, this`wgSeq
      ensures id !in old(devices) ==> found == None && Value() == old(Value())
      ensures id in old(devices) ==>
                var stage := EnsureAlone(old(devices)[id].wg, old(wgSeq), keys).2;
                Value() == Provisioned(old(Value()), id, keys) && found == Some((stage.ip, stage.priv))
      ensures id in old(devices) ==>
                var was := old(devices)[id];
                if was.wg.ip.Some? then
                  Value() == old(Value()) && found == Some((was.wg.ip.value, was.wg.priv))
                else
                  var ip := 0x0A4D0000 + old(wgSeq);
                  && wgSeq == old(wgSeq) + 1 && found == Some((ip, Some(keys.priv)))
                  && devices == old(devices)[id := was.(wg := Wg(Some(ip), Some(keys.priv), Some(keys.pub)))]
    {
      if id !in devices {
        return None;
      }
      var row := devices[id].wg;
      if row.ip.Some? && row.priv.Some? {
        assert devices == devices[id := devices[id].(wg := row)];
        return Some((row.ip.value, row.priv));
      }
      if devices[id].wg.ip == None {
        var drawn := wgSeq;
        wgSeq := wgSeq + 1;
        devices := devices[id := devices[id].(wg := Wg(Some(BASE + drawn), Some(keys.priv), Some(keys.pub)))];
        return Some((BASE + drawn, Some(keys.priv)));
      }
      assert devices == devices[id := devices[id].(wg := row)];
      found := Some((devices[id].wg.ip.value, devices[id].wg.priv));
    }

    /** INSERT ... WHERE NOT EXISTS of the tunnel row, with the device as it was read. */
    method ListTunnel(id: Uuid, wgIP: nat, d: Device)
      modifies this`nas
      ensures Value() == TunnelInserted(old(Value()), id, wgIP, d.secret, d.name)
      ensures var name := "mfb-" + id[..8] + "-wg";
              nas == if Named(old(nas), name) == [] then old(nas) + [Client(wgIP, name, d.secret, d.name + " (tunnel)")]
                     else old(nas)
    {
      if Named(nas, TunnelName(id)) == [] {
        nas := nas + [Client(wgIP, TunnelName(id), d.secret, d.name + " (tunnel)")];
      }
    }

    /** The script's tunnel part: the identity, then the tunnel row. */
    method ProvideTunnel(id: Uuid, d: Device, keys: Keypair) returns (tunnel: Option<(nat, Option<nat>)>)
      requires id in devices && d == devices[id]
      modifies this`devices, this`nas, this`wgSeq
      ensures Value() == Scripted(old(Value()), id, keys)
      ensures tunnel.Some? && Carried(Some(id), tunnel.value)
      ensures old(Valid()) ==> Valid() && OnlyTunnelRow(Some(id))
    {
      ghost var was := Value();
      tunnel := EnsureWG(id, keys);
      if tunnel.Some? {
        ListTunnel(id, tunnel.value.0, d);
      }
      if Faithful(was) {
        ScriptedKeepsFaithful(was, id, keys);
      }
    }

    /** The script's answer carries the tunnel address and key when tunnels are configured. */
    method DeviceScript(tenant: nat, sent: string, tunnels: bool, keys: Keypair)
      returns (r: Response, tunnel: Option<(nat, Option<nat>)>)
      modifies this`devices, this`nas, this`wgSeq
      ensures r == Respond(old(Value()), Script(tenant, sent, tunnels, keys))
      ensures Value() == Registry.Next(old(Value()), Script(tenant, sent, tunnels, keys))
      ensures r == if Owns(old(Value()), sent, tenant) then Done else NotFound
      ensures tunnel.Some? <==> r == Done && tunnels
      ensures tunnel == None ==> Value() == old(Value())
      ensures tunnel.Some? ==> Carried(IdOf(sent), tunnel.value)
      ensures tunnel.Some? && old(Valid()) ==> OnlyTunnelRow(IdOf(sent))
      ensures old(Valid()) ==> Valid()
    {
      tunnel := None;
      var d := DeviceByID(sent, tenant);
      if d == None {
        return NotFound, None;
      }
      if tunnels {
        tunnel := ProvideTunnel(d.value.0, d.value.1, keys);
      }
      r := Done;
    }
  }
}
