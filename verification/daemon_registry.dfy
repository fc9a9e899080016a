/**
 * `Registry` of `sw_daemon/compositor/register.py`: the globals the
 * compositor announces, of which the compositor, the shared-memory
 * factory and the layer shell are bound once each and every output is
 * bound and kept.  `bind` is modelled as handing out a proxy with a fresh
 * id, counted by `nextId`.
 */
module DaemonRegistry {
  import opened Base
  import opened Compositor

  datatype Registry = Registry(compositor: Option<Proxy>, shm: Option<Proxy>, layerShell: Option<Proxy>,
                               outputs: seq<Proxy>, nextId: nat)

  /** A registry before any global was announced. */
  const Fresh := Registry(None, None, None, [], 0)

  /** All three globals a surface needs are bound. */
  predicate Bound(reg: Registry) {
    reg.compositor.Some? && reg.shm.Some? && reg.layerShell.Some?
  }

  /** Every proxy the registry holds came from an earlier `bind`, and no two outputs share one. */
  predicate Valid(reg: Registry) {
    (reg.compositor.Some? ==> reg.compositor.value.id < reg.nextId) &&
    (reg.shm.Some? ==> reg.shm.value.id < reg.nextId) &&
    (reg.layerShell.Some? ==> reg.layerShell.value.id < reg.nextId) &&
    (forall k :: 0 <= k < |reg.outputs| ==> reg.outputs[k].id < reg.nextId) &&
    (forall i, j :: 0 <= i < j < |reg.outputs| ==> reg.outputs[i].id != reg.outputs[j].id)
  }

  /** `bind`: the next proxy. */
  function Bind(reg: Registry, name: nat, iface: string, version: nat): (p: Proxy)
    ensures p.name == name && p.iface == iface && p.version == version
  {
    Proxy(reg.nextId, name, iface, version)
  }

  /** The interfaces the registry keeps. */
  predicate Known(iface: string) {
    iface in {"wl_compositor", "wl_shm", "zwlr_layer_shell_v1", "wl_output"}
  }

  /**
   * `on_global`: a known interface is bound into its own slot (outputs
   * are appended); anything else is ignored.  A later announcement of the
   * same singleton interface replaces the earlier proxy.
   */
  function OnGlobal(reg: Registry, name: nat, iface: string, version: nat): (r: Registry)
    ensures !Known(iface) ==> r == reg
    ensures Known(iface) ==> r.nextId == reg.nextId + 1
    ensures r.compositor == if iface == "wl_compositor" then Some(Bind(reg, name, iface, version)) else reg.compositor
    ensures r.shm == if iface == "wl_shm" then Some(Bind(reg, name, iface, version)) else reg.shm
    ensures r.layerShell == if iface == "zwlr_layer_shell_v1" then Some(Bind(reg, name, iface, version)) else reg.layerShell
    ensures r.outputs == if iface == "wl_output" then reg.outputs + [Bind(reg, name, iface, version)] else reg.outputs
  {
    var p := Bind(reg, name, iface, version);
    var next := reg.(nextId := reg.nextId + 1);
    if iface == "wl_compositor" then next.(compositor := Some(p))
    else if iface == "wl_shm" then next.(shm := Some(p))
    else if iface == "zwlr_layer_shell_v1" then next.(layerShell := Some(p))
    else if iface == "wl_output" then next.(outputs := reg.outputs + [p])
    else reg
  }

  /** An announcement keeps the registry valid: the new proxy's id is fresh. */
  lemma OnGlobalValid(reg: Registry, name: nat, iface: string, version: nat)
    requires Valid(reg)
    ensures Valid(OnGlobal(reg, name, iface, version))
  {
  }

  /** One announced global: its name, interface and version. */
  datatype Global = Global(name: nat, iface: string, version: nat)

  /** The registry after a run of announcements, in order. */
  function Announce(reg: Registry, globals: seq<Global>): Registry
    decreases |globals|
  {
    if globals == [] then reg
    else
      var g := globals[0];
      Announce(OnGlobal(reg, g.name, g.iface, g.version), globals[1..])
  }

  function IsOutput(g: Global): bool {
    g.iface == "wl_output"
  }

  /** The global names of a run of proxies. */
  function Names(ps: seq<Proxy>): (r: seq<nat>)
    ensures |r| == |ps| && forall k :: 0 <= k < |ps| ==> r[k] == ps[k].name
  {
    if ps == [] then [] else [ps[0].name] + Names(ps[1..])
  }

  /** The names of the announced outputs, in announcement order. */
  function OutputNames(globals: seq<Global>): (r: seq<nat>)
    ensures |r| <= |globals|
    ensures forall g :: g in globals && IsOutput(g) ==> g.name in r
  {
    if globals == [] then []
    else if IsOutput(globals[0]) then [globals[0].name] + OutputNames(globals[1..])
    else OutputNames(globals[1..])
  }

  /** Outputs are only ever added: what was bound stays, in its place. */
  lemma {:induction false} OutputsOnlyGrow(reg: Registry, globals: seq<Global>)
    ensures reg.outputs <= Announce(reg, globals).outputs
    decreases |globals|
  {
    if globals != [] {
      var g := globals[0];
      OutputsOnlyGrow(OnGlobal(reg, g.name, g.iface, g.version), globals[1..]);
    }
  }

  lemma NamesAppend(ps: seq<Proxy>, p: Proxy)
    ensures Names(ps + [p]) == Names(ps) + [p.name]
  {
  }

  /**
   * The outputs after a run of announcements are those already bound,
   * then one for each announced `wl_output` global, in announcement order.
   */
  lemma {:induction false} AnnouncedOutputs(reg: Registry, globals: seq<Global>)
    ensures Names(Announce(reg, globals).outputs) == Names(reg.outputs) + OutputNames(globals)
    decreases |globals|
  {
    if globals != [] {
      var g := globals[0];
      var next := OnGlobal(reg, g.name, g.iface, g.version);
      AnnouncedOutputs(next, globals[1..]);
      if IsOutput(g) {
        NamesAppend(reg.outputs, Bind(reg, g.name, g.iface, g.version));
      }
    }
  }

  /** Announcements keep the registry valid. */
  lemma {:induction false} AnnounceValid(reg: Registry, globals: seq<Global>)
    requires Valid(reg)
    ensures Valid(Announce(reg, globals))
    decreases |globals|
  {
    if globals != [] {
      var g := globals[0];
      OnGlobalValid(reg, g.name, g.iface, g.version);
      AnnounceValid(OnGlobal(reg, g.name, g.iface, g.version), globals[1..]);
    }
  }
}
