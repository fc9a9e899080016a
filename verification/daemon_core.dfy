/**
 * `SWDaemon` of `sw_daemon/app/core.py`: the renderer, the registry, one
 * handler per output, the lazily created shared-memory pool and the
 * requests sent to the compositor.  The daemon's own objects (surfaces
 * and buffers) take their ids from `nextId`.  Decoding an image is the
 * parameter `decoded`, resampling the parameter `resample`; a new buffer
 * is taken to hold zero bytes.
 */
module DaemonCore {
  import opened Base
  import PyStr
  import PySeq
  import opened Compositor
  import DaemonRender
  import DaemonRegistry
  import opened DaemonOutput

  type Resample = (DaemonRender.Image, nat, nat) -> ((nat, nat) -> DaemonRender.Pixel)

  /** `image`, `width`/`height` (`None` until an image is loaded), `registry`, `outputs`, `pool`. */
  datatype Daemon = Daemon(image: DaemonRender.Renderer, size: Option<(nat, nat)>, registry: DaemonRegistry.Registry,
                           outputs: seq<Handler>, pool: bool, nextId: nat, log: seq<Request>)

  /** Every buffer a surface holds is as large as its size says. */
  predicate Valid(d: Daemon) {
    forall k :: 0 <= k < |d.outputs| && d.outputs[k].surface.cached.Some? ==> WellSized(d.outputs[k].surface.cached.value)
  }

  /**
   * The constructor: with an image path the image is loaded first, and a
   * file that does not decode raises out of it; the registry starts empty.
   */
  function Start(decoded: Option<Result<DaemonRender.Raster, string>>): (r: Result<Daemon, string>)
    ensures decoded.Some? && decoded.value.Err? <==> r.Err?
    ensures r.Err? ==> r.error == decoded.value.error
    ensures r.Ok? ==> Valid(r.value) && r.value.outputs == [] && !r.value.pool && r.value.log == [] &&
                      r.value.registry == DaemonRegistry.Fresh
    ensures r.Ok? && decoded.None? ==> r.value.image.src.None? && r.value.size.None?
    ensures r.Ok? && decoded.Some? ==>
              r.value.image.src == Some(decoded.value.value) &&
              r.value.size == Some((decoded.value.value.width, decoded.value.value.height))
  {
    var empty := Daemon(DaemonRender.Initial, None, DaemonRegistry.Fresh, [], false, 0, []);
    match decoded
    case None => Ok(empty)
    case Some(file) =>
      match DaemonRender.LoadImage(DaemonRender.Initial, file)
      case Err(e) => Err(e)
      case Ok(rd) => Ok(empty.(image := rd, size := Some((rd.currentWidth, rd.currentHeight))))
  }

  /** A buffer as the pool hands it out. */
  function Zeros(n: nat): (r: seq<DaemonRender.Byte>)
    ensures |r| == n && forall k :: 0 <= k < n ==> r[k] == 0
  {
    seq(n, _ => 0)
  }

  /** `create_shm_buffer`: the pool is made on first use; the buffer is fresh and four bytes per pixel. */
  function CreateShmBuffer(d: Daemon, width: nat, height: nat): (r: (Daemon, ShmBuffer))
    ensures r.1.width == width && r.1.height == height && WellSized(r.1) && r.1.memory == Zeros(4 * width * height)
    ensures r.1.id == d.nextId && r.0.nextId == d.nextId + 1
    ensures r.0.pool
    ensures d.log <= r.0.log && (CreatePool in r.0.log[|d.log|..] <==> !d.pool)
    ensures |r.0.log| > |d.log| && r.0.log[|r.0.log| - 1] == CreateBuffer(r.1.id, width, height)
    ensures r.0.image == d.image && r.0.size == d.size && r.0.registry == d.registry && r.0.outputs == d.outputs
  {
    var made := if d.pool then [] else [CreatePool];
    var b := ShmBuffer(d.nextId, width, height, Zeros(4 * width * height));
    var log := d.log + made + [CreateBuffer(b.id, width, height)];
    assert log[|d.log|..] == made + [CreateBuffer(b.id, width, height)];
    (d.(pool := true, nextId := d.nextId + 1, log := log), b)
  }

  /** `draw_wallpaper`: without an image the memory is left alone; with one, the frame is copied in. */
  function DrawWallpaper(d: Daemon, memory: seq<DaemonRender.Byte>, width: nat, height: nat, resample: Resample)
    : (r: seq<DaemonRender.Byte>)
    requires d.image.src.Some? ==> 4 * width * height <= |memory|
    ensures |r| == |memory|
    ensures d.image.src.None? ==> r == memory
    ensures d.image.src.Some? ==> r[..4 * width * height] == DaemonRender.Frame(d.image.src.value, width, height, resample)
  {
    DaemonRender.CopyToBuffer(d.image, memory, width, height, resample).1
  }

  /** The surface already holds a buffer of this size, which `redraw_surface` draws into again. */
  predicate Reuses(s: Surface, width: nat, height: nat) {
    s.cached.Some? && s.cached.value.width == width && s.cached.value.height == height
  }

  /** The buffer `redraw_surface` draws into: the surface's own when it `Reuses` it, a new one otherwise. */
  function TakeBuffer(d: Daemon, s: Surface, width: nat, height: nat): (r: (Daemon, ShmBuffer))
    requires s.cached.Some? ==> WellSized(s.cached.value)
    ensures r.0.image == d.image && r.0.size == d.size && r.0.registry == d.registry && r.0.outputs == d.outputs
    ensures d.log <= r.0.log
    ensures r.1.width == width && r.1.height == height && WellSized(r.1)
    ensures Reuses(s, width, height) ==> r.1 == s.cached.value && r.0 == d
    ensures !Reuses(s, width, height) ==>
              r.1.id == d.nextId && r.0.nextId == d.nextId + 1 && r.1.memory == Zeros(4 * width * height)
  {
    if Reuses(s, width, height) then (d, s.cached.value) else CreateShmBuffer(d, width, height)
  }

  /**
   * `redraw_surface`: nothing at a zero size; otherwise the surface gets
   * a new buffer unless it holds one of exactly this size, the wallpaper
   * is drawn into it, and it is attached, damaged whole and committed.
   */
  function RedrawSurface(d: Daemon, s: Surface, width: nat, height: nat, resample: Resample): (r: (Daemon, Surface))
    requires s.cached.Some? ==> WellSized(s.cached.value)
    ensures width == 0 || height == 0 ==> r == (d, s)
    ensures r.1.id == s.id
    ensures r.0.image == d.image && r.0.size == d.size && r.0.registry == d.registry && r.0.outputs == d.outputs
    ensures r.0.nextId >= d.nextId && d.log <= r.0.log
    ensures width > 0 && height > 0 ==>
              r.1.cached.Some? &&
              var b := r.1.cached.value;
              b.width == width && b.height == height && WellSized(b) &&
              (Reuses(s, width, height) ==> b.id == s.cached.value.id && r.0.nextId == d.nextId) &&
              (!Reuses(s, width, height) ==> b.id == d.nextId && r.0.nextId == d.nextId + 1) &&
              (d.image.src.Some? ==> b.memory == DaemonRender.Frame(d.image.src.value, width, height, resample)) &&
              (d.image.src.None? && Reuses(s, width, height) ==> b.memory == s.cached.value.memory) &&
              (d.image.src.None? && !Reuses(s, width, height) ==> b.memory == Zeros(4 * width * height)) &&
              |r.0.log| >= 3 && r.0.log[|r.0.log| - 3..] == [Attach(s.id, b), Damage(s.id, width, height), CommitSurface(s.id)]
  {
    if width == 0 || height == 0 then (d, s)
    else
      var (d1, b) := TakeBuffer(d, s, width, height);
      var memory := DrawWallpaper(d1, b.memory, width, height, resample);
      assert d.image.src.Some? ==> memory == memory[..4 * width * height];
      var drawn := b.(memory := memory);
      var log := d1.log + [Attach(s.id, drawn), Damage(s.id, width, height), CommitSurface(s.id)];
      (d1.(log := log), Surface(s.id, Some(drawn)))
  }

  /**
   * `on_configure` of the handler at `i`: the serial is acknowledged, the
   * surface redrawn at the new size, and the size remembered.
   */
  function Configure(d: Daemon, i: nat, serial: nat, width: nat, height: nat, resample: Resample): (r: Daemon)
    requires Valid(d) && i < |d.outputs|
    ensures Valid(r) && |r.outputs| == |d.outputs|
    ensures forall k :: 0 <= k < |d.outputs| && k != i ==> r.outputs[k] == d.outputs[k]
    ensures r.outputs[i].output == d.outputs[i].output && r.outputs[i].surface.id == d.outputs[i].surface.id
    ensures r.outputs[i].width == width && r.outputs[i].height == height
    ensures r.image == d.image && r.registry == d.registry && r.nextId >= d.nextId
    ensures |r.log| > |d.log| && r.log[|d.log|] == AckConfigure(d.outputs[i].surface.id, serial)
    ensures width == 0 || height == 0 ==> r.outputs[i].surface == d.outputs[i].surface
    ensures width > 0 && height > 0 ==>
              var c := r.outputs[i].surface.cached;
              c.Some? && c.value.width == width && c.value.height == height &&
              (d.image.src.Some? ==> c.value.memory == DaemonRender.Frame(d.image.src.value, width, height, resample))
  {
    var h := d.outputs[i];
    var d1 := d.(log := d.log + [Acknowledge(h, serial)]);
    var (d2, s) := RedrawSurface(d1, h.surface, width, height, resample);
    d2.(outputs := d.outputs[i := Configured(h, s, width, height)])
  }

  /** `redraw` of the handler at `i`: its surface is redrawn at its size, if it has one. */
  function Redraw(d: Daemon, i: nat, resample: Resample): (r: Daemon)
    requires Valid(d) && i < |d.outputs|
    ensures Valid(r) && |r.outputs| == |d.outputs|
    ensures forall k :: 0 <= k < |d.outputs| && k != i ==> r.outputs[k] == d.outputs[k]
    ensures var (h, g) := (d.outputs[i], r.outputs[i]);
            g.output == h.output && g.width == h.width && g.height == h.height && g.surface.id == h.surface.id
    ensures !Sized(d.outputs[i]) ==> r == d
    ensures r.image == d.image && r.size == d.size && r.registry == d.registry && r.nextId >= d.nextId
    ensures Sized(d.outputs[i]) ==>
              var (h, c) := (d.outputs[i], r.outputs[i].surface.cached);
              c.Some? && c.value.width == h.width && c.value.height == h.height &&
              (Reuses(h.surface, h.width, h.height) ==> c.value.id == h.surface.cached.value.id && r.nextId == d.nextId) &&
              (!Reuses(h.surface, h.width, h.height) ==> c.value.id == d.nextId) &&
              (d.image.src.Some? ==> c.value.memory == DaemonRender.Frame(d.image.src.value, h.width, h.height, resample))
  {
    var h := d.outputs[i];
    match RedrawSize(h)
    case None => d
    case Some(size) =>
      var (d2, s) := RedrawSurface(d, h.surface, size.0, size.1, resample);
      d2.(outputs := d.outputs[i := h.(surface := s)])
  }

  /** A configured output that is redrawn at the same size draws into the buffer it already has. */
  lemma ConfigureThenRedrawReuses(d: Daemon, i: nat, serial: nat, width: nat, height: nat, resample: Resample)
    requires Valid(d) && i < |d.outputs| && width > 0 && height > 0
    ensures var c := Configure(d, i, serial, width, height, resample);
            var r := Redraw(c, i, resample);
            r.nextId == c.nextId && r.outputs[i].surface.cached.value.id == c.outputs[i].surface.cached.value.id
  {
  }

  /** The surfaces with the buffers dropped, as `set_image` does first. */
  function DropBuffers(hs: seq<Handler>): (r: seq<Handler>)
    ensures |r| == |hs|
    ensures forall k :: 0 <= k < |hs| ==>
              r[k].output == hs[k].output && r[k].width == hs[k].width && r[k].height == hs[k].height &&
              r[k].surface == Surface(hs[k].surface.id, None)
  {
    seq(|hs|, k requires 0 <= k < |hs| => hs[k].(surface := Surface(hs[k].surface.id, None)))
  }

  /**
   * What redrawing does to one handler `h`, giving `g`: the output, size and
   * surface stay; a handler without a size is left alone; one with a size
   * holds a buffer of that size, a new one (numbered from `nextId` on) when
   * it had none, showing the frame of the image when there is one.
   */
  predicate Redrawn(h: Handler, g: Handler, nextId: nat, image: DaemonRender.Renderer, resample: Resample) {
    g.output == h.output && g.width == h.width && g.height == h.height && g.surface.id == h.surface.id &&
    (!Sized(h) ==> g == h) &&
    (Sized(h) ==>
       var c := g.surface.cached;
       c.Some? && c.value.width == h.width && c.value.height == h.height &&
       (h.surface.cached.None? ==> c.value.id >= nextId) &&
       (image.src.Some? ==> c.value.memory == DaemonRender.Frame(image.src.value, h.width, h.height, resample)))
  }

  /** The second loop of `set_image`: every output from `i` on is redrawn, in order. */
  function RedrawFrom(d: Daemon, i: nat, resample: Resample): (r: Daemon)
    requires Valid(d) && i <= |d.outputs|
    ensures Valid(r) && |r.outputs| == |d.outputs|
    ensures r.image == d.image && r.size == d.size && r.registry == d.registry && r.nextId >= d.nextId
    ensures forall k :: 0 <= k < i ==> r.outputs[k] == d.outputs[k]
    ensures forall k :: i <= k < |d.outputs| ==> Redrawn(d.outputs[k], r.outputs[k], d.nextId, d.image, resample)
    decreases |d.outputs| - i
  {
    if i == |d.outputs| then d
    else
      var d1 := Redraw(d, i, resample);
      var r := RedrawFrom(d1, i + 1, resample);
      RedrawFromStep(d, d1, r, i, resample);
      r
  }

  /** The first redrawn handler and the ones after it, redrawn by the rest of the loop, are all `Redrawn` from `d`. */
  lemma RedrawFromStep(d: Daemon, d1: Daemon, r: Daemon, i: nat, resample: Resample)
    requires Valid(d) && i < |d.outputs| && d1 == Redraw(d, i, resample)
    requires |r.outputs| == |d1.outputs| && r.nextId >= d1.nextId && r.image == d1.image
    requires forall k :: 0 <= k < i + 1 ==> r.outputs[k] == d1.outputs[k]
    requires forall k :: i + 1 <= k < |d1.outputs| ==> Redrawn(d1.outputs[k], r.outputs[k], d1.nextId, d1.image, resample)
    ensures forall k :: 0 <= k < i ==> r.outputs[k] == d.outputs[k]
    ensures forall k :: i <= k < |d.outputs| ==> Redrawn(d.outputs[k], r.outputs[k], d.nextId, d.image, resample)
  {
    assert r.outputs[i] == d1.outputs[i];
    forall k | i < k < |d.outputs|
      ensures Redrawn(d.outputs[k], r.outputs[k], d.nextId, d.image, resample)
    {
      assert d1.outputs[k] == d.outputs[k];
      assert Redrawn(d1.outputs[k], r.outputs[k], d1.nextId, d1.image, resample);
    }
  }

  /**
   * `set_image`: an image that does not decode raises before anything
   * changes; otherwise it becomes the source, every output drops its
   * buffer, and every output with a size is drawn afresh.
   */
  function SetImage(d: Daemon, decoded: Result<DaemonRender.Raster, string>, resample: Resample): (r: Result<Daemon, string>)
    requires Valid(d)
    ensures decoded.Err? <==> r.Err?
    ensures r.Err? ==> r.error == decoded.error
    ensures r.Ok? ==>
              var (img, n) := (decoded.value, r.value);
              Valid(n) && n.image.src == Some(img) && n.size == Some((img.width, img.height)) &&
              n.registry == d.registry && |n.outputs| == |d.outputs| &&
              forall k :: 0 <= k < |d.outputs| ==>
                var (h, g) := (d.outputs[k], n.outputs[k]);
                g.output == h.output && g.width == h.width && g.height == h.height && g.surface.id == h.surface.id &&
                (!Sized(h) ==> g.surface.cached.None?) &&
                (Sized(h) ==> g.surface.cached.Some? && g.surface.cached.value.id >= d.nextId &&
                              g.surface.cached.value.width == h.width && g.surface.cached.value.height == h.height &&
                              g.surface.cached.value.memory == DaemonRender.Frame(img, h.width, h.height, resample))
  {
    match DaemonRender.LoadImage(d.image, decoded)
    case Err(e) => Err(e)
    case Ok(rd) =>
      var d1 := d.(image := rd, size := Some((rd.currentWidth, rd.currentHeight)), outputs := DropBuffers(d.outputs));
      Ok(RedrawFrom(d1, 0, resample))
  }

  // ---- outputs coming and going ----

  /** The handlers whose output's text is `text`, and those whose is not. */
  function Labelled(show: Proxy -> string, text: string): Handler -> bool {
    (h: Handler) => show(h.output) == text
  }

  function Unlabelled(show: Proxy -> string, text: string): Handler -> bool {
    (h: Handler) => show(h.output) != text
  }

  /** The requests that destroy each of `hs`, in order. */
  function Destroys(hs: seq<Handler>): (r: seq<Request>)
    ensures |r| == 2 * |hs|
    ensures forall k :: 0 <= k < |hs| ==> r[2 * k] == DestroyLayerSurface(hs[k].surface.id) && r[2 * k + 1] == DestroySurface(hs[k].surface.id)
  {
    if hs == [] then []
    else
      var rest := Destroys(hs[1..]);
      var r := Destroy(hs[0]) + rest;
      forall k | 1 <= k < |hs|
        ensures r[2 * k] == DestroyLayerSurface(hs[k].surface.id) && r[2 * k + 1] == DestroySurface(hs[k].surface.id)
      {
        var j := k - 1;
        assert hs[k] == hs[1..][j];
        assert 2 * k == 2 + 2 * j;
        assert r[2 + 2 * j] == rest[2 * j] && r[2 + 2 * j + 1] == rest[2 * j + 1];
      }
      r
  }

  /**
   * `remove_output_by_name`: every handler whose output prints as the
   * removed global's number is destroyed, in order, and dropped; the
   * rest stay in order.  `show` is `str` of an output proxy.
   */
  function RemoveOutputByName(d: Daemon, name: nat, show: Proxy -> string): (r: Daemon)
    ensures var text := PyStr.IntToString(name);
            (forall k :: 0 <= k < |r.outputs| ==> r.outputs[k] in d.outputs && show(r.outputs[k].output) != text) &&
            (forall k :: 0 <= k < |d.outputs| && show(d.outputs[k].output) != text ==> d.outputs[k] in r.outputs)
    ensures var gone := PySeq.Filter(d.outputs, Labelled(show, PyStr.IntToString(name)));
            r.log == d.log + Destroys(gone) && |r.outputs| + |gone| == |d.outputs|
    ensures Valid(d) ==> Valid(r)
    ensures r.image == d.image && r.registry == d.registry && r.nextId == d.nextId && r.pool == d.pool
  {
    var text := PyStr.IntToString(name);
    var kept := PySeq.Filter(d.outputs, Unlabelled(show, text));
    var gone := PySeq.Filter(d.outputs, Labelled(show, text));
    SplitLength(d.outputs, show, text);
    d.(outputs := kept, log := d.log + Destroys(gone))
  }

  /** The `k`-th request of `Destroys(hs)` destroys a surface of handler `k / 2`. */
  lemma DestroysAt(hs: seq<Handler>, k: nat)
    requires k < |Destroys(hs)|
    ensures Destroys(hs)[k].DestroyLayerSurface? || Destroys(hs)[k].DestroySurface?
    ensures k / 2 < |hs| && Destroys(hs)[k].surface == hs[k / 2].surface.id
  {
    var r := Destroys(hs);
    var j := k / 2;
    assert j < |hs|;
    if k % 2 == 0 {
      assert k == 2 * j;
      assert r[2 * j] == DestroyLayerSurface(hs[j].surface.id);
    } else {
      assert k == 2 * j + 1;
      assert r[2 * j + 1] == DestroySurface(hs[j].surface.id);
    }
  }

  /**
   * Removing an output destroys nothing but the surfaces of handlers
   * whose output carries the removed name: every request it logs is a
   * destroy request for one of them.
   */
  lemma RemoveDestroysOnlyLabelled(d: Daemon, name: nat, show: Proxy -> string, k: nat)
    requires |d.log| <= k < |RemoveOutputByName(d, name, show).log|
    ensures var req := RemoveOutputByName(d, name, show).log[k];
            (req.DestroyLayerSurface? || req.DestroySurface?) &&
            exists j :: 0 <= j < |d.outputs| && show(d.outputs[j].output) == PyStr.IntToString(name) &&
                        req.surface == d.outputs[j].surface.id
  {
    var text := PyStr.IntToString(name);
    var gone := PySeq.Filter(d.outputs, Labelled(show, text));
    var r := RemoveOutputByName(d, name, show);
    var i := k - |d.log|;
    assert r.log[k] == Destroys(gone)[i];
    DestroysAt(gone, i);
    var h := gone[i / 2];
    assert h in d.outputs && Labelled(show, text)(h);
    var j :| 0 <= j < |d.outputs| && d.outputs[j] == h;
    assert show(d.outputs[j].output) == text && r.log[k].surface == d.outputs[j].surface.id;
  }

  /** Every handler goes to exactly one side of the split. */
  lemma {:induction false} SplitLength(hs: seq<Handler>, show: Proxy -> string, text: string)
    ensures |PySeq.Filter(hs, Unlabelled(show, text))| + |PySeq.Filter(hs, Labelled(show, text))| == |hs|
  {
    if hs != [] {
      SplitLength(hs[1..], show, text);
    }
  }

  /** Removing a name no handler carries changes nothing but the log, which gets nothing. */
  lemma RemoveUnknownName(d: Daemon, name: nat, show: Proxy -> string)
    requires forall k :: 0 <= k < |d.outputs| ==> show(d.outputs[k].output) != PyStr.IntToString(name)
    ensures RemoveOutputByName(d, name, show) == d
  {
    var text := PyStr.IntToString(name);
    PySeq.FilterKeepsAll(d.outputs, Unlabelled(show, text));
    PySeq.FilterRejectsAll(d.outputs, Labelled(show, text));
    assert d.log + Destroys([]) == d.log;
  }

  /** The outputs some handler already serves. */
  function Served(hs: seq<Handler>): (r: set<Proxy>)
    ensures forall p :: p in r <==> exists k :: 0 <= k < |hs| && hs[k].output == p
  {
    set k | 0 <= k < |hs| :: hs[k].output
  }

  /** The loop of `assert_initialised`: a handler for each pending output not in `existing`, in order. */
  function AddHandlers(d: Daemon, pending: seq<Proxy>, existing: set<Proxy>): (r: Daemon)
    ensures d.outputs <= r.outputs
    ensures Valid(d) ==> Valid(r)
    ensures r.image == d.image && r.size == d.size && r.registry == d.registry && r.pool == d.pool
    ensures r.nextId >= d.nextId && d.log <= r.log
    decreases |pending|
  {
    if pending == [] then d
    else if pending[0] in existing then AddHandlers(d, pending[1..], existing)
    else
      var (h, requests) := Create(pending[0], d.nextId);
      AddHandlers(d.(outputs := d.outputs + [h], nextId := d.nextId + 1, log := d.log + requests), pending[1..], existing)
  }

  /** Every handler the loop adds serves a pending output not in `existing`, and has no size and no buffer yet. */
  lemma {:induction false} AddedHandlers(d: Daemon, pending: seq<Proxy>, existing: set<Proxy>)
    ensures var r := AddHandlers(d, pending, existing);
            forall k :: |d.outputs| <= k < |r.outputs| ==>
              r.outputs[k].output in pending && r.outputs[k].output !in existing &&
              !Sized(r.outputs[k]) && r.outputs[k].surface.cached.None?
    decreases |pending|
  {
    if pending != [] {
      var r := AddHandlers(d, pending, existing);
      var tail := pending[1..];
      var d1 := d;
      if pending[0] !in existing {
        var (h, requests) := Create(pending[0], d.nextId);
        d1 := d.(outputs := d.outputs + [h], nextId := d.nextId + 1, log := d.log + requests);
        assert r == AddHandlers(d1, tail, existing);
        assert r.outputs[|d.outputs|] == h;
      }
      assert r == AddHandlers(d1, tail, existing);
      AddedHandlers(d1, tail, existing);
      forall k | |d.outputs| <= k < |r.outputs|
        ensures r.outputs[k].output in pending && r.outputs[k].output !in existing &&
                !Sized(r.outputs[k]) && r.outputs[k].surface.cached.None?
      {
        if k >= |d1.outputs| {
          assert r.outputs[k].output in tail;
        }
      }
    }
  }

  /** Every pending output not in `existing` gets a handler. */
  lemma {:induction false} AddHandlersCovers(d: Daemon, pending: seq<Proxy>, existing: set<Proxy>)
    ensures var r := AddHandlers(d, pending, existing);
            forall k :: 0 <= k < |pending| && pending[k] !in existing ==>
              exists j :: |d.outputs| <= j < |r.outputs| && r.outputs[j].output == pending[k]
    decreases |pending|
  {
    if pending != [] {
      var r := AddHandlers(d, pending, existing);
      var tail := pending[1..];
      var d1 := d;
      if pending[0] !in existing {
        var (h, requests) := Create(pending[0], d.nextId);
        d1 := d.(outputs := d.outputs + [h], nextId := d.nextId + 1, log := d.log + requests);
        assert r == AddHandlers(d1, tail, existing);
        assert r.outputs[|d.outputs|] == h;
      }
      assert r == AddHandlers(d1, tail, existing);
      AddHandlersCovers(d1, tail, existing);
      forall k | 0 <= k < |pending| && pending[k] !in existing
        ensures exists j :: |d.outputs| <= j < |r.outputs| && r.outputs[j].output == pending[k]
      {
        if k > 0 {
          assert pending[k] == tail[k - 1];
          var j :| |d1.outputs| <= j < |r.outputs| && r.outputs[j].output == tail[k - 1];
          assert |d.outputs| <= j;
        } else {
          var j := |d.outputs|;
          assert r.outputs[j].output == pending[0];
        }
      }
      assert r == AddHandlers(d, pending, existing);
    }
  }

  /** Reference: the pending outputs not in `existing`, in their order. */
  function Unserved(pending: seq<Proxy>, existing: set<Proxy>): seq<Proxy>
    decreases |pending|
  {
    if pending == [] then []
    else (if pending[0] in existing then [] else [pending[0]]) + Unserved(pending[1..], existing)
  }

  /** The handlers the loop appends serve exactly the unserved pending outputs, in order. */
  predicate AppendsInOrder(d: Daemon, r: Daemon, pending: seq<Proxy>, existing: set<Proxy>) {
    var u := Unserved(pending, existing);
    |r.outputs| == |d.outputs| + |u| &&
    forall k :: 0 <= k < |u| ==> r.outputs[|d.outputs| + k].output == u[k]
  }

  lemma {:induction false} AddHandlersInOrder(d: Daemon, pending: seq<Proxy>, existing: set<Proxy>)
    ensures AppendsInOrder(d, AddHandlers(d, pending, existing), pending, existing)
    decreases |pending|
  {
    if pending != [] {
      var r := AddHandlers(d, pending, existing);
      var tail := pending[1..];
      var u, rest := Unserved(pending, existing), Unserved(tail, existing);
      if pending[0] in existing {
        assert r == AddHandlers(d, tail, existing);
        AddHandlersInOrder(d, tail, existing);
        assert u == rest;
      } else {
        var (h, requests) := Create(pending[0], d.nextId);
        var d1 := d.(outputs := d.outputs + [h], nextId := d.nextId + 1, log := d.log + requests);
        assert r == AddHandlers(d1, tail, existing);
        AddHandlersInOrder(d1, tail, existing);
        assert u == [pending[0]] + rest;
        forall k | 0 <= k < |u|
          ensures r.outputs[|d.outputs| + k].output == u[k]
        {
          if k == 0 {
            assert r.outputs[|d.outputs|] == d1.outputs[|d.outputs|] == h;
          } else {
            assert u[k] == rest[k - 1];
          }
        }
      }
    }
  }

  /** With every pending output already served, the loop adds nothing. */
  lemma {:induction false} AddNothing(d: Daemon, pending: seq<Proxy>, existing: set<Proxy>)
    requires forall k :: 0 <= k < |pending| ==> pending[k] in existing
    ensures AddHandlers(d, pending, existing) == d
    decreases |pending|
  {
    if pending != [] {
      AddNothing(d, pending[1..], existing);
    }
  }

  /**
   * `assert_initialised`: until the compositor, the shared-memory factory
   * and the layer shell are all bound nothing happens; then every bound
   * output that no handler served before the loop gets a new handler.
   * The method answers `False` on both paths, so the answer is not
   * modelled.
   */
  function AssertInitialised(d: Daemon): (r: Daemon)
    ensures !DaemonRegistry.Bound(d.registry) ==> r == d
    ensures d.outputs <= r.outputs
    ensures DaemonRegistry.Bound(d.registry) ==>
              forall k :: 0 <= k < |d.registry.outputs| ==>
                exists j :: 0 <= j < |r.outputs| && r.outputs[j].output == d.registry.outputs[k]
    ensures forall k :: |d.outputs| <= k < |r.outputs| ==>
              r.outputs[k].output in d.registry.outputs && r.outputs[k].output !in Served(d.outputs) &&
              !Sized(r.outputs[k]) && r.outputs[k].surface.cached.None?
    ensures DaemonRegistry.Bound(d.registry) ==> AppendsInOrder(d, r, d.registry.outputs, Served(d.outputs))
    ensures Valid(d) ==> Valid(r)
    ensures r.image == d.image && r.registry == d.registry
  {
    if !DaemonRegistry.Bound(d.registry) then d
    else
      var r := AddHandlers(d, d.registry.outputs, Served(d.outputs));
      AddedHandlers(d, d.registry.outputs, Served(d.outputs));
      AddHandlersCovers(d, d.registry.outputs, Served(d.outputs));
      AddHandlersInOrder(d, d.registry.outputs, Served(d.outputs));
      assert forall k :: 0 <= k < |d.outputs| ==> r.outputs[k] == d.outputs[k];
      r
  }

  /** Running `assert_initialised` again, as the event loop does every turn, changes nothing more. */
  lemma AssertInitialisedIdempotent(d: Daemon)
    ensures AssertInitialised(AssertInitialised(d)) == AssertInitialised(d)
  {
    var r := AssertInitialised(d);
    if DaemonRegistry.Bound(d.registry) {
      AddNothing(r, r.registry.outputs, Served(r.outputs));
    }
  }

  /**
   * Removing an output's handlers leaves the output in the registry, so
   * the next `assert_initialised` gives it a new handler: the removal does
   * not last.
   */
  lemma RemovedOutputReturns(d: Daemon, name: nat, show: Proxy -> string, o: Proxy)
    requires DaemonRegistry.Bound(d.registry)
    requires o in d.registry.outputs && show(o) == PyStr.IntToString(name)
    ensures var r := AssertInitialised(RemoveOutputByName(d, name, show));
            exists j :: 0 <= j < |r.outputs| && r.outputs[j].output == o
  {
    var k :| 0 <= k < |d.registry.outputs| && d.registry.outputs[k] == o;
    var removed := RemoveOutputByName(d, name, show);
    assert removed.registry.outputs[k] == o;
    var r := AssertInitialised(removed);
    assert exists j :: 0 <= j < |r.outputs| && r.outputs[j].output == removed.registry.outputs[k];
  }

  function Unnamed(show: Proxy -> string, text: string): Proxy -> bool {
    (p: Proxy) => show(p) != text
  }

  /** `remove_output_by_name` that also forgets the registry's proxies for the removed global. */
  function ForgetOutput(d: Daemon, name: nat, show: Proxy -> string): (r: Daemon)
    ensures var removed := RemoveOutputByName(d, name, show);
            r.outputs == removed.outputs && r.log == removed.log
    ensures forall k :: 0 <= k < |r.registry.outputs| ==>
              r.registry.outputs[k] in d.registry.outputs && show(r.registry.outputs[k]) != PyStr.IntToString(name)
    ensures forall k :: 0 <= k < |d.registry.outputs| && show(d.registry.outputs[k]) != PyStr.IntToString(name) ==>
              d.registry.outputs[k] in r.registry.outputs
    ensures DaemonRegistry.Bound(r.registry) == DaemonRegistry.Bound(d.registry)
  {
    var removed := RemoveOutputByName(d, name, show);
    var outputs := PySeq.Filter(d.registry.outputs, Unnamed(show, PyStr.IntToString(name)));
    removed.(registry := d.registry.(outputs := outputs))
  }

  /** With the registry forgetting it too, no handler for the removed output comes back. */
  lemma RemovedOutputStaysGone(d: Daemon, name: nat, show: Proxy -> string)
    ensures var r := AssertInitialised(ForgetOutput(d, name, show));
            forall k :: 0 <= k < |r.outputs| ==> show(r.outputs[k].output) != PyStr.IntToString(name)
  {
  }
}
