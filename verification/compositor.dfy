/**
 * What the daemon's compositor objects look like from its side: the
 * proxies `bind` returns, shared-memory buffers, surfaces and the requests
 * sent to the compositor, recorded in order.  The Wayland library itself
 * is outside the model; ids stand for object identity.
 */
module Compositor {
  import opened Base
  import DaemonRender

  /** A bound global: told apart from every other proxy by its id. */
  datatype Proxy = Proxy(id: nat, name: nat, iface: string, version: nat)

  /** A buffer from the shared-memory pool and the bytes it holds. */
  datatype ShmBuffer = ShmBuffer(id: nat, width: nat, height: nat, memory: seq<DaemonRender.Byte>)

  /** Four bytes for each pixel, as the pool allocates. */
  predicate WellSized(b: ShmBuffer) {
    |b.memory| == 4 * b.width * b.height
  }

  /** A surface and the buffer cached on it (`buffer`, `buffer_ptr` and `buffer_size`). */
  datatype Surface = Surface(id: nat, cached: Option<ShmBuffer>)

  /** The requests sent to the compositor. */
  datatype Request =
    | CreateSurface(surface: nat)
    | GetLayerSurface(surface: nat, output: Proxy) // on the background layer, namespace "sw"
    | SetAnchor(surface: nat)                      // top, bottom, left and right
    | SetExclusiveZone(surface: nat, zone: int)
    | CommitSurface(surface: nat)
    | AckConfigure(surface: nat, serial: nat)
    | CreatePool
    | CreateBuffer(bufferId: nat, width: nat, height: nat)
    | Attach(surface: nat, buffer: ShmBuffer)      // the buffer as it is when attached
    | Damage(surface: nat, width: nat, height: nat) // from the origin
    | DestroyLayerSurface(surface: nat)
    | DestroySurface(surface: nat)
}
