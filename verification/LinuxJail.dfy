/**
 The resources of one Linux jail (src/jail/linux/mod.rs, resources.rs, nftables.rs) and their
 handles (src/sys_resource.rs): how setup creates them, how they are torn down by handle and by
 name, and what is left of the host afterwards.
 */
module LinuxJail {
  import opened Wrappers
  import opened Resources

  /** The host.  `veths` maps the host end of a pair to the namespace its other end is in, "" for
      the host itself; `guarded` are the namespaces that hold the jail's own ruleset. */
  datatype Os = Os(
    namespaces: set<string>,
    veths: map<string, string>,
    tables: set<string>,
    dirs: set<string>,
    guarded: set<string>)

  // ----- names

  function NameOf(k: Resource, id: string): string {
    match k
    case Namespace => "httpjail_" + id
    case VethPair => "vh_" + id
    case HostTable => "httpjail_" + id
    case NetnsDir => "/etc/netns/httpjail_" + id
  }

  lemma NamesInjective(k: Resource, a: string, b: string)
    requires NameOf(k, a) == NameOf(k, b)
    ensures a == b
  {
    var n := |NameOf(k, a)| - |a|;
    assert a == NameOf(k, a)[n..] && b == NameOf(k, b)[n..];
  }

  /** Interface names fit the kernel's 15 characters for ids of up to 12. */
  lemma InterfaceNameFits(id: string)
    ensures |NameOf(VethPair, id)| <= 15 <==> |id| <= 12
  {
  }

  predicate Has(os: Os, k: Resource, name: string) {
    match k
    case Namespace => name in os.namespaces
    case VethPair => name in os.veths
    case HostTable => name in os.tables
    case NetnsDir => name in os.dirs
  }

  /** The kinds of resource that jail `id` has on the host. */
  function Owned(os: Os, id: string): set<Resource> {
    set k: Resource | k in ALL_RESOURCES && Has(os, k, NameOf(k, id))
  }

  /** The host without anything of jail `id`. */
  function Without(os: Os, id: string): Os {
    var ns := NameOf(Namespace, id);
    Os(os.namespaces - {ns},
       map v | v in os.veths && v != NameOf(VethPair, id) && os.veths[v] != ns :: os.veths[v],
       os.tables - {NameOf(HostTable, id)},
       os.dirs - {NameOf(NetnsDir, id)},
       os.guarded - {ns})
  }

  /** Pairs end on the host or in a namespace that exists, and rulesets are in such a namespace. */
  ghost predicate Sound(os: Os) {
    && (forall v :: v in os.veths ==> os.veths[v] == "" || os.veths[v] in os.namespaces)
    && os.guarded <= os.namespaces
  }

  // ----- deleting

  /** A delete command; a namespace takes the pairs that end in it, and its rulesets, along. */
  function Deleted(os: Os, k: Resource, name: string): Os {
    match k
    case Namespace =>
      if name !in os.namespaces then os
      else os.(namespaces := os.namespaces - {name},
               veths := map v | v in os.veths && os.veths[v] != name :: os.veths[v],
               guarded := os.guarded - {name})
    case VethPair => os.(veths := os.veths - {name})
    case HostTable => os.(tables := os.tables - {name})
    case NetnsDir => os.(dirs := os.dirs - {name})
  }

  /** The same command when the kinds in `stuck` cannot be deleted. */
  function Attempted(os: Os, stuck: set<Resource>, k: Resource, name: string): Os {
    if k in stuck then os else Deleted(os, k, name)
  }

  /** A handle on one resource, as its `SystemResource` keeps it. */
  datatype Handle = Handle(kind: Resource, name: string, created: bool)

  /** `cleanup` of a handle. */
  function Cleaned(os: Os, stuck: set<Resource>, h: Handle): Os {
    if h.created then Attempted(os, stuck, h.kind, h.name) else os
  }

  /** `cleanup_orphaned`: four handles for existing resources, dropped in reverse order. */
  function CleanedByName(os: Os, stuck: set<Resource>, id: string): Os {
    var a := Attempted(os, stuck, NetnsDir, NameOf(NetnsDir, id));
    var b := Attempted(a, stuck, HostTable, NameOf(HostTable, id));
    var c := Attempted(b, stuck, VethPair, NameOf(VethPair, id));
    Attempted(c, stuck, Namespace, NameOf(Namespace, id))
  }

  lemma WithoutTwice(os: Os, id: string)
    ensures Without(Without(os, id), id) == Without(os, id)
  {
  }

  lemma AttemptTouchesOnly(os: Os, stuck: set<Resource>, k: Resource, id: string)
    ensures var after := Attempted(os, stuck, k, NameOf(k, id));
            && Without(after, id) == Without(os, id)
            && (os == Without(os, id) ==> after == os)
            && Owned(after, id) <= Owned(os, id)
            && (Sound(os) ==> Sound(after))
  {
  }

  lemma CleanedTouchesOnly(os: Os, stuck: set<Resource>, k: Resource, id: string)
    ensures forall created ::
              var after := Cleaned(os, stuck, Handle(k, NameOf(k, id), created));
              && Without(after, id) == Without(os, id)
              && (os == Without(os, id) ==> after == os)
              && Owned(after, id) <= Owned(os, id)
              && (created && k !in stuck ==> k !in Owned(after, id))
  {
    AttemptTouchesOnly(os, stuck, k, id);
  }

  lemma CleanupTouchesOnly(os: Os, stuck: set<Resource>, id: string)
    ensures var after := CleanedByName(os, stuck, id);
            Without(after, id) == Without(os, id) && (Sound(os) ==> Sound(after))
  {
    var a := Attempted(os, stuck, NetnsDir, NameOf(NetnsDir, id));
    var b := Attempted(a, stuck, HostTable, NameOf(HostTable, id));
    var c := Attempted(b, stuck, VethPair, NameOf(VethPair, id));
    AttemptTouchesOnly(os, stuck, NetnsDir, id);
    AttemptTouchesOnly(a, stuck, HostTable, id);
    AttemptTouchesOnly(b, stuck, VethPair, id);
    AttemptTouchesOnly(c, stuck, Namespace, id);
  }

  /** The pair goes down with its namespace even when it cannot be deleted itself. */
  predicate FallsWithNamespace(os: Os, stuck: set<Resource>, id: string) {
    Namespace !in stuck && Has(os, Namespace, NameOf(Namespace, id)) &&
    Has(os, VethPair, NameOf(VethPair, id)) && os.veths[NameOf(VethPair, id)] == NameOf(Namespace, id)
  }

  /** Exactly what a cleanup by name leaves behind. */
  lemma CleanupLeaves(os: Os, stuck: set<Resource>, id: string)
    ensures Owned(CleanedByName(os, stuck, id), id) ==
            Owned(os, id) * stuck - (if FallsWithNamespace(os, stuck, id) then {VethPair} else {})
  {
    var after := CleanedByName(os, stuck, id);
    forall k: Resource
      ensures k in Owned(after, id) <==>
              k in Owned(os, id) && k in stuck && !(k.VethPair? && FallsWithNamespace(os, stuck, id))
    {
      match k case Namespace => case VethPair => case HostTable => case NetnsDir =>
    }
  }

  /** `cleanup_orphaned` always returns Ok; the jail's resources are gone exactly when none of those
      it has is stuck, apart from a pair that falls with its namespace. */
  lemma CleanupFreesIff(os: Os, stuck: set<Resource>, id: string)
    ensures Owned(CleanedByName(os, stuck, id), id) == {} <==>
            forall k :: k in Owned(os, id) && k in stuck ==> k.VethPair? && FallsWithNamespace(os, stuck, id)
  {
    CleanupLeaves(os, stuck, id);
    if forall k :: k in Owned(os, id) && k in stuck ==> k.VethPair? && FallsWithNamespace(os, stuck, id) {
      assert forall k :: k in Owned(os, id) * stuck ==> k == VethPair;
    } else {
      var k :| k in Owned(os, id) && k in stuck && !(k.VethPair? && FallsWithNamespace(os, stuck, id));
      assert k in Owned(CleanedByName(os, stuck, id), id);
    }
  }

  lemma WithoutKeepsSound(os: Os, id: string)
    requires Sound(os)
    ensures Sound(Without(os, id))
  {
  }

  lemma SinglePass(os: Os, id: string)
    requires Sound(os)
    ensures CleanedByName(os, {}, id) == Without(os, id)
  {
    var after := CleanedByName(os, {}, id);
    assert NameOf(Namespace, id) != "";
    assert after.veths == Without(os, id).veths;
  }

  /** When deletes succeed, one pass removes everything of the jail and nothing else, and a second
      pass changes nothing. */
  lemma CleanupIsComplete(os: Os, id: string)
    requires Sound(os)
    ensures CleanedByName(os, {}, id) == Without(os, id)
    ensures CleanedByName(Without(os, id), {}, id) == Without(os, id)
  {
    SinglePass(os, id);
    WithoutKeepsSound(os, id);
    SinglePass(Without(os, id), id);
    WithoutTwice(os, id);
  }

  // ----- objects

  /** What all jails and the host share: the bind mounts on the file that /etc/resolv.conf links to, and
      whether the systemd stub of that file exists. */
  datatype Resolv = Resolv(mounts: nat, stub: bool)

  /** The `umount` that a netns directory's cleanup runs on that file, if /etc/resolv.conf is a link. */
  function Unmounted(linked: bool, r: Resolv): Resolv {
    if linked && r.mounts > 0 then r.(mounts := r.mounts - 1) else r
  }

  class Host {
    var os: Os
    var resolv: Resolv
    const stuck: set<Resource>
    const linked: bool

    constructor (os: Os, resolv: Resolv, stuck: set<Resource>, linked: bool)
      ensures this.os == os && this.resolv == resolv && this.stuck == stuck && this.linked == linked
    {
      this.os, this.resolv, this.stuck, this.linked := os, resolv, stuck, linked;
    }
  }

  /** The cleanup of this handle runs `umount`. */
  predicate Unmounts(resource: Option<Handle>) {
    resource.Some? && resource.value.created && resource.value.kind.NetnsDir?
  }

  /** Runs the cleanup of the resource it wraps at most once. */
  class ManagedResource {
    var resource: Option<Handle>

    constructor FromResource(h: Handle)
      ensures resource == Some(h)
    {
      resource := Some(h);
    }

    constructor ForExisting(k: Resource, id: string)
      ensures resource == Some(Handle(k, NameOf(k, id), true))
    {
      resource := Some(Handle(k, NameOf(k, id), true));
    }

    method Drop(host: Host)
      modifies this, host`os, host`resolv
      ensures resource.None?
      ensures host.os == match old(resource)
                         case Some(h) => Cleaned(old(host.os), host.stuck, h)
                         case None => old(host.os)
      ensures host.resolv == if Unmounts(old(resource)) then Unmounted(host.linked, old(host.resolv))
                             else old(host.resolv)
    {
      if resource.Some? {
        var h := resource.value;
        resource := None;
        if h.created && h.kind.NetnsDir? && host.linked && host.resolv.mounts > 0 {
          host.resolv := host.resolv.(mounts := host.resolv.mounts - 1);
        }
        if h.created && h.kind !in host.stuck {
          host.os := Deleted(host.os, h.kind, h.name);
        }
      }
    }
  }

  /** `LinuxJail::cleanup_orphaned`; it always returns Ok. */
  method CleanupOrphaned(host: Host, id: string) returns (ok: bool)
    modifies host`os, host`resolv
    ensures ok && host.os == CleanedByName(old(host.os), host.stuck, id)
    ensures host.resolv == Unmounted(host.linked, old(host.resolv))
  {
    var namespace := new ManagedResource.ForExisting(Namespace, id);
    var veth := new ManagedResource.ForExisting(VethPair, id);
    var nftables := new ManagedResource.ForExisting(HostTable, id);
    var netnsResolv := new ManagedResource.ForExisting(NetnsDir, id);
    netnsResolv.Drop(host);
    nftables.Drop(host);
    veth.Drop(host);
    namespace.Drop(host);
    return true;
  }

  /** How each command of `setup` turns out; `tableReported` is false when the host table was
      applied but the command is reported as failed. */
  datatype Script = Script(root: bool, addNamespace: bool, addVeth: bool, moveVeth: bool, hostNetwork: bool,
    guestNetwork: bool, makeDir: bool, writeResolv: bool, makeStub: bool, startDns: bool, applyTable: bool,
    tableReported: bool, namespaceRules: bool)

  /** Writing the jail's resolv.conf also creates the host's stub when it is missing, at best effort. */
  function WithStub(r: Resolv, script: Script): Resolv {
    if script.makeDir && script.writeResolv && script.makeStub then r.(stub := true) else r
  }

  predicate Cleans(resource: Option<Handle>) {
    resource.Some? && resource.value.created
  }

  predicate Holds(resource: Option<Handle>, k: Resource, id: string) {
    resource.Some? && resource.value.kind == k && resource.value.name == NameOf(k, id)
  }

  predicate HoldsCreated(resource: Option<Handle>, k: Resource, id: string) {
    Holds(resource, k, id) && Cleans(resource)
  }

  predicate Complete(os: Os, id: string) {
    && Owned(os, id) == ALL_RESOURCES
    && os.veths[NameOf(VethPair, id)] == NameOf(Namespace, id)
    && NameOf(Namespace, id) in os.guarded
  }

  /** Namespace, pair, addresses and routes: every command of the first half succeeds and both names are free. */
  predicate LinksUp(os: Os, id: string, script: Script) {
    && script.root && script.addNamespace && NameOf(Namespace, id) !in os.namespaces
    && script.addVeth && NameOf(VethPair, id) !in os.veths && script.moveVeth
    && script.hostNetwork && script.guestNetwork
  }

  /** DNS, host table and namespace ruleset: every command of the second half succeeds. */
  predicate ServicesUp(script: Script) {
    && script.makeDir && script.writeResolv && script.startDns
    && script.applyTable && script.tableReported && script.namespaceRules
  }

  class LinuxJail {
    const id: string
    var netnsResolv: ManagedResource?
    var nftables: ManagedResource?
    var vethPair: ManagedResource?
    var namespace: ManagedResource?

    constructor (id: string)
      ensures this.id == id && netnsResolv == null && nftables == null && vethPair == null && namespace == null
    {
      this.id := id;
      netnsResolv, nftables, vethPair, namespace := null, null, null, null;
    }

    ghost function Fields(): set<ManagedResource?>
      reads this
    {
      {netnsResolv, nftables, vethPair, namespace} - {null}
    }

    /** Every handle is for a resource of this jail. */
    ghost predicate HoldsOwn()
      reads this, Fields()
    {
      && (netnsResolv != null ==> Holds(netnsResolv.resource, NetnsDir, id))
      && (nftables != null ==> Holds(nftables.resource, HostTable, id))
      && (vethPair != null ==> Holds(vethPair.resource, VethPair, id))
      && (namespace != null ==> Holds(namespace.resource, Namespace, id))
    }

    /** The kinds of which the jail holds a handle that it would clean up. */
    ghost function Handled(): set<Resource>
      reads this, Fields()
    {
      (if netnsResolv != null && Cleans(netnsResolv.resource) then {NetnsDir} else {}) +
      (if nftables != null && Cleans(nftables.resource) then {HostTable} else {}) +
      (if vethPair != null && Cleans(vethPair.resource) then {VethPair} else {}) +
      (if namespace != null && Cleans(namespace.resource) then {Namespace} else {})
    }

    /** `setup`, stopping at the first command that fails.  Whatever happens, the rest of the host
        is as before; on success the jail has all four kinds, its pair ends in its namespace, and
        the namespace holds its ruleset. */
    method Setup(host: Host, script: Script) returns (ok: bool)
      requires netnsResolv == null && nftables == null && vethPair == null && namespace == null
      modifies this, host`os, host`resolv
      ensures Without(host.os, id) == Without(old(host.os), id)
      ensures Sound(old(host.os)) ==> Sound(host.os)
      ensures host.resolv == old(host.resolv) || host.resolv == WithStub(old(host.resolv), script)
      ensures ok ==> (host.resolv.stub <==> old(host.resolv.stub) || script.makeStub)
      ensures ok ==> host.resolv == WithStub(old(host.resolv), script)
      ensures HoldsOwn() && fresh(Fields())
      ensures ok <==> LinksUp(old(host.os), id, script) && ServicesUp(script)
      ensures !LinksUp(old(host.os), id, script) ==>
                && host.os.dirs == old(host.os.dirs) && host.os.tables == old(host.os.tables)
                && host.resolv == old(host.resolv)
      ensures ok ==> Complete(host.os, id)
      ensures ok ==> netnsResolv != null && nftables != null && vethPair != null && namespace != null
      ensures ok ==> Handled() == ALL_RESOURCES
      ensures forall k :: k in Owned(host.os, id) && k !in Owned(old(host.os), id) ==>
                k in Handled() || (k.NetnsDir? && !script.writeResolv) || (k.HostTable? && !script.tableReported)
    {
      ok := SetupLinks(host, script);
      if ok {
        ok := SetupServices(host, script);
      }
    }

    /** The first half: root check, namespace, veth pair, addresses and routes. */
    method SetupLinks(host: Host, script: Script) returns (ok: bool)
      requires vethPair == null && namespace == null
      modifies this`namespace, this`vethPair, host`os
      ensures Without(host.os, id) == Without(old(host.os), id)
      ensures Sound(old(host.os)) ==> Sound(host.os)
      ensures namespace != null ==> fresh(namespace) && HoldsCreated(namespace.resource, Namespace, id)
      ensures vethPair != null ==> fresh(vethPair) && HoldsCreated(vethPair.resource, VethPair, id)
      ensures ok <==> LinksUp(old(host.os), id, script)
      ensures NameOf(Namespace, id) in host.os.namespaces - old(host.os.namespaces) ==> namespace != null
      ensures NameOf(VethPair, id) in host.os.veths.Keys - old(host.os.veths.Keys) ==> vethPair != null
      ensures host.os == old(host.os).(namespaces := host.os.namespaces, veths := host.os.veths)
      ensures ok ==> namespace != null && vethPair != null
      ensures ok ==> NameOf(Namespace, id) in host.os.namespaces && NameOf(VethPair, id) in host.os.veths
      ensures ok ==> host.os.veths[NameOf(VethPair, id)] == NameOf(Namespace, id)
    {
      if !script.root {
        return false;
      }
      ok := CreateNamespace(host, script);
      if ok {
        ok := SetupVethPair(host, script);
      }
      ok := ok && script.hostNetwork && script.guestNetwork;
    }

    /** The second half: DNS, host table, and the ruleset inside the namespace. */
    method SetupServices(host: Host, script: Script) returns (ok: bool)
      requires netnsResolv == null && nftables == null
      requires NameOf(Namespace, id) in host.os.namespaces
      modifies this`netnsResolv, this`nftables, host`os, host`resolv
      ensures Without(host.os, id) == Without(old(host.os), id)
      ensures Sound(old(host.os)) ==> Sound(host.os)
      ensures host.os.namespaces == old(host.os.namespaces) && host.os.veths == old(host.os.veths)
      ensures host.resolv == WithStub(old(host.resolv), script)
      ensures netnsResolv != null ==> fresh(netnsResolv) && HoldsCreated(netnsResolv.resource, NetnsDir, id)
      ensures nftables != null ==> fresh(nftables) && HoldsCreated(nftables.resource, HostTable, id)
      ensures ok <==> ServicesUp(script)
      ensures NameOf(NetnsDir, id) in host.os.dirs - old(host.os.dirs) ==> netnsResolv != null || !script.writeResolv
      ensures NameOf(HostTable, id) in host.os.tables - old(host.os.tables) ==>
                nftables != null || !script.tableReported
      ensures ok ==> netnsResolv != null && nftables != null
      ensures ok ==> NameOf(NetnsDir, id) in host.os.dirs && NameOf(HostTable, id) in host.os.tables
      ensures ok ==> NameOf(Namespace, id) in host.os.guarded
    {
      ok := StartDnsServer(host, script);
      if ok {
        ok := SetupHostNat(host, script);
      }
      if ok && script.namespaceRules {
        host.os := host.os.(guarded := host.os.guarded + {NameOf(Namespace, id)});
      } else {
        ok := false;
      }
    }

    method CreateNamespace(host: Host, script: Script) returns (ok: bool)
      modifies this`namespace, host`os
      requires namespace == null
      ensures host.os == old(host.os).(namespaces := host.os.namespaces)
      ensures host.os.namespaces == old(host.os.namespaces) + (if ok then {NameOf(Namespace, id)} else {})
      ensures namespace != null ==> fresh(namespace) && HoldsCreated(namespace.resource, Namespace, id)
      ensures ok <==> script.addNamespace && NameOf(Namespace, id) !in old(host.os.namespaces)
      ensures ok ==> namespace != null
    {
      var ns := NameOf(Namespace, id);
      if !script.addNamespace || ns in host.os.namespaces {
        return false;
      }
      host.os := host.os.(namespaces := host.os.namespaces + {ns});
      namespace := new ManagedResource.FromResource(Handle(Namespace, ns, true));
      return true;
    }

    method SetupVethPair(host: Host, script: Script) returns (ok: bool)
      modifies this`vethPair, host`os
      requires vethPair == null
      ensures host.os == old(host.os).(veths := host.os.veths)
      ensures host.os.veths == old(host.os.veths)
           || host.os.veths == old(host.os.veths)[NameOf(VethPair, id) := ""]
           || host.os.veths == old(host.os.veths)[NameOf(VethPair, id) := NameOf(Namespace, id)]
      ensures vethPair != null ==> fresh(vethPair) && HoldsCreated(vethPair.resource, VethPair, id)
      ensures NameOf(VethPair, id) in host.os.veths.Keys - old(host.os.veths.Keys) ==> vethPair != null
      ensures ok <==> script.addVeth && NameOf(VethPair, id) !in old(host.os.veths) && script.moveVeth
      ensures ok ==> vethPair != null && NameOf(VethPair, id) in host.os.veths
      ensures ok ==> host.os.veths[NameOf(VethPair, id)] == NameOf(Namespace, id)
    {
      var vh := NameOf(VethPair, id);
      if !script.addVeth || vh in host.os.veths {
        return false;
      }
      host.os := host.os.(veths := host.os.veths[vh := ""]);
      vethPair := new ManagedResource.FromResource(Handle(VethPair, vh, true));
      if script.moveVeth {
        host.os := host.os.(veths := host.os.veths[vh := NameOf(Namespace, id)]);
      }
      return script.moveVeth;
    }

    method StartDnsServer(host: Host, script: Script) returns (ok: bool)
      modifies this`netnsResolv, host`os, host`resolv
      requires netnsResolv == null
      ensures host.os == old(host.os).(dirs := host.os.dirs)
      ensures host.resolv == WithStub(old(host.resolv), script)
      ensures host.os.dirs == old(host.os.dirs) || host.os.dirs == old(host.os.dirs) + {NameOf(NetnsDir, id)}
      ensures netnsResolv != null ==> fresh(netnsResolv) && HoldsCreated(netnsResolv.resource, NetnsDir, id)
      ensures NameOf(NetnsDir, id) in host.os.dirs - old(host.os.dirs) ==> netnsResolv != null || !script.writeResolv
      ensures ok <==> script.makeDir && script.writeResolv && script.startDns
      ensures ok ==> netnsResolv != null && NameOf(NetnsDir, id) in host.os.dirs
    {
      if !script.makeDir {
        return false;
      }
      host.os := host.os.(dirs := host.os.dirs + {NameOf(NetnsDir, id)});
      if !script.writeResolv {
        return false;
      }
      if script.makeStub {
        host.resolv := host.resolv.(stub := true);
      }
      netnsResolv := new ManagedResource.FromResource(Handle(NetnsDir, NameOf(NetnsDir, id), true));
      return script.startDns;
    }

    method SetupHostNat(host: Host, script: Script) returns (ok: bool)
      modifies this`nftables, host`os
      requires nftables == null
      ensures host.os == old(host.os).(tables := host.os.tables)
      ensures host.os.tables == old(host.os.tables) || host.os.tables == old(host.os.tables) + {NameOf(HostTable, id)}
      ensures nftables != null ==> fresh(nftables) && HoldsCreated(nftables.resource, HostTable, id)
      ensures NameOf(HostTable, id) in host.os.tables - old(host.os.tables) ==>
                nftables != null || !script.tableReported
      ensures ok <==> script.applyTable && script.tableReported
      ensures ok ==> nftables != null && NameOf(HostTable, id) in host.os.tables
    {
      if !script.applyTable {
        return false;
      }
      host.os := host.os.(tables := host.os.tables + {NameOf(HostTable, id)});
      if !script.tableReported {
        return false;
      }
      nftables := new ManagedResource.FromResource(Handle(HostTable, NameOf(HostTable, id), true));
      return true;
    }

    /** The fields in declaration order, after the jail's own `Drop`. */
    method DropFields(host: Host)
      requires HoldsOwn()
      modifies Fields(), host`os, host`resolv
      ensures Owned(host.os, id) * (old(Handled()) - host.stuck) == {}
      ensures host.resolv == if NetnsDir in old(Handled()) then Unmounted(host.linked, old(host.resolv))
                             else old(host.resolv)
      ensures Without(host.os, id) == Without(old(host.os), id)
      ensures old(host.os) == Without(old(host.os), id) ==> host.os == old(host.os)
      ensures Owned(host.os, id) <= Owned(old(host.os), id)
    {
      ghost var os0 := host.os;
      if netnsResolv != null {
        netnsResolv.Drop(host);
        CleanedTouchesOnly(os0, host.stuck, NetnsDir, id);
      }
      ghost var os1 := host.os;
      if nftables != null {
        nftables.Drop(host);
        CleanedTouchesOnly(os1, host.stuck, HostTable, id);
      }
      ghost var os2 := host.os;
      if vethPair != null {
        vethPair.Drop(host);
        CleanedTouchesOnly(os2, host.stuck, VethPair, id);
      }
      ghost var os3 := host.os;
      if namespace != null {
        namespace.Drop(host);
        CleanedTouchesOnly(os3, host.stuck, Namespace, id);
      }
    }
  }

  /** `LinuxJail::cleanup`. */
  method CleanUp(host: Host, id: string)
    requires Sound(host.os)
    modifies host`os, host`resolv
    ensures Sound(host.os) && Without(host.os, id) == Without(old(host.os), id)
    ensures Owned(host.os, id) <= host.stuck
    ensures host.stuck == {} ==> host.os == Without(old(host.os), id) == Without(host.os, id)
    ensures host.resolv == Unmounted(host.linked, old(host.resolv))
  {
    ghost var before := host.os;
    var ok := CleanupOrphaned(host, id);
    CleanupTouchesOnly(before, host.stuck, id);
    CleanupLeaves(before, host.stuck, id);
    if host.stuck == {} {
      CleanupIsComplete(before, id);
      WithoutTwice(before, id);
    }
  }

  /** What becomes of a jail whose setup has succeeded: the drop alone, explicit cleanup and then the
      drop, or explicit cleanup and the end of the process, whose signal handler still holds the jail. */
  datatype Ending = Dropped | CleanedUpAndDropped | CleanedUp

  /** The life of a `ManagedJail<LinuxJail>`; a jail whose setup has failed is dropped.  The drop cleans
      up by name and then drops the jail's own handles.  Nothing of the jail is left but what cannot
      be deleted.  The rest of the host is as it was, except that the stub of resolv.conf may be new,
      and that every cleanup takes one bind mount off the host's own resolv.conf: those mounts stay
      exactly when there are none, or the file is not a link. */
  method Lifetime(host: Host, id: string, script: Script, ending: Ending)
    requires Sound(host.os)
    modifies host`os, host`resolv
    ensures Without(host.os, id) == Without(old(host.os), id)
    ensures Owned(host.os, id) <= host.stuck
    ensures host.stuck == {} ==> host.os == Without(old(host.os), id)
    ensures host.resolv.stub == old(host.resolv.stub) || host.resolv.stub == WithStub(old(host.resolv), script).stub
    ensures host.resolv.mounts <= old(host.resolv.mounts) <= host.resolv.mounts + 3
    ensures host.resolv.mounts == old(host.resolv.mounts) <==> !host.linked || old(host.resolv.mounts) == 0
  {
    var jail := new LinuxJail(id);
    var ok := jail.Setup(host, script);
    if ok && !ending.Dropped? {
      CleanUp(host, id);
      if ending.CleanedUp? {
        return;
      }
    }
    CleanUp(host, id);
    jail.DropFields(host);
  }

  // ----- properties

  /** Resources of every other jail are untouched, because names are injective; its pair must not
      have been moved into this jail's namespace, which no code does. */
  lemma OthersAreUntouched(os: Os, id: string, other: string)
    requires id != other
    requires Has(os, VethPair, NameOf(VethPair, other)) ==> os.veths[NameOf(VethPair, other)] != NameOf(Namespace, id)
    ensures Owned(Without(os, id), other) == Owned(os, other)
    ensures Complete(os, other) ==> Complete(Without(os, id), other)
  {
    forall k: Resource ensures NameOf(k, id) != NameOf(k, other) {
      if NameOf(k, id) == NameOf(k, other) {
        NamesInjective(k, id, other);
      }
    }
  }
}
