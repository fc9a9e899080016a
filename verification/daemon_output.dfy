/**
 * `OutputHandler` of `sw_daemon/compositor/output.py`: one layer surface
 * on the background layer of one output.  What the handler asks of the
 * compositor is returned as requests; the drawing it asks of the daemon
 * (`app.redraw_surface`) is done by the daemon core, which applies
 * `Configured` once it has drawn.
 */
module DaemonOutput {
  import opened Base
  import opened Compositor

  /** The output, its surface, and the size last configured (`0` before the first configure). */
  datatype Handler = Handler(output: Proxy, surface: Surface, width: nat, height: nat)

  /** A handler that has been given a size to draw at. */
  predicate Sized(h: Handler) {
    h.width > 0 && h.height > 0
  }

  /**
   * The constructor: a new surface with no buffer, made a layer surface
   * of the output anchored to all four edges with exclusive zone `-1`,
   * then committed; no size yet.
   */
  function Create(output: Proxy, surfaceId: nat): (r: (Handler, seq<Request>))
    ensures r.0.output == output && r.0.surface.id == surfaceId && r.0.surface.cached.None?
    ensures !Sized(r.0)
    ensures |r.1| == 5 && r.1[0].CreateSurface? && r.1[1].GetLayerSurface? && r.1[2].SetAnchor? &&
            r.1[3].SetExclusiveZone? && r.1[4].CommitSurface?
    ensures r.1[1].output == output && r.1[3].zone == -1
    ensures forall k :: 0 <= k < |r.1| ==> r.1[k].surface == surfaceId
  {
    var s := Surface(surfaceId, None);
    (Handler(output, s, 0, 0),
     [CreateSurface(s.id), GetLayerSurface(s.id, output), SetAnchor(s.id), SetExclusiveZone(s.id, -1), CommitSurface(s.id)])
  }

  /** The first step of `on_configure`: acknowledge the serial on this handler's surface. */
  function Acknowledge(h: Handler, serial: nat): (r: Request)
    ensures r.AckConfigure? && r.surface == h.surface.id && r.serial == serial
  {
    AckConfigure(h.surface.id, serial)
  }

  /** The last step of `on_configure`: the surface as drawn, and the size remembered. */
  function Configured(h: Handler, drawn: Surface, width: nat, height: nat): (r: Handler)
    requires drawn.id == h.surface.id
    ensures r.output == h.output && r.surface == drawn
    ensures r.width == width && r.height == height
    ensures Sized(r) <==> width > 0 && height > 0
  {
    Handler(h.output, drawn, width, height)
  }

  /** `redraw`: the size to redraw at, if the handler has one. */
  function RedrawSize(h: Handler): (r: Option<(nat, nat)>)
    ensures r.Some? <==> Sized(h)
    ensures r.Some? ==> r.value == (h.width, h.height)
  {
    if h.width > 0 && h.height > 0 then Some((h.width, h.height)) else None
  }

  /** `destroy`: the layer surface goes, then the surface; nothing but this handler's surface is touched. */
  function Destroy(h: Handler): (r: seq<Request>)
    ensures |r| == 2 && r[0].DestroyLayerSurface? && r[1].DestroySurface?
    ensures forall k :: 0 <= k < |r| ==> (r[k].DestroyLayerSurface? || r[k].DestroySurface?) && r[k].surface == h.surface.id
  {
    [DestroyLayerSurface(h.surface.id), DestroySurface(h.surface.id)]
  }
}
