/** The `CesiumThreeIntegration` class of js/cesium-three-integration.js as a
    state machine: set-up, the per-frame copy of the globe camera into the
    overlay camera followed by a render, window resizing and adding turbines.
    The overlay engine's objects are recorded as data; the DOM, listener
    registration and the rendering itself are outside the model. */
module CesiumThree {
  import opened Optional
  import opened Geometry
  import opened Turbine

  /** What the globe camera offers each frame: position, view direction,
      vertical field of view in radians, and the near and far planes. */
  datatype GlobeCamera = GlobeCamera(position: Vec3, direction: Vec3, fovy: real, near: real, far: real)

  /** The overlay's perspective camera: position, the point it was last told to
      look at, vertical field of view in degrees, aspect ratio and planes. */
  datatype OverlayCamera = OverlayCamera(
    position: Vec3,
    lookTarget: Option<Vec3>,
    fov: real,
    aspect: real,
    near: real,
    far: real)

  /** The contents of the overlay scene. */
  datatype Node =
    | AmbientLight(color: int, intensity: real)
    | DirectionalLight(color: int, intensity: real, position: Vec3)
    | TurbineNode(model: TurbineModel)

  /** One `renderer.render(scene, camera)` call: what was drawn, and from where. */
  datatype Frame = Frame(scene: seq<Node>, camera: OverlayCamera)

  /** The integration object: before `init` it holds no scene, camera or
      renderer (`initialized` is false); afterwards it holds them all. */
  datatype Integration =
    | Uninitialized
    | Ready(scene: seq<Node>, camera: OverlayCamera, frames: seq<Frame>)
  {
    predicate Initialized() {
      Ready?
    }
  }

  /** The constructor: nothing set up yet. */
  function New(): (s: Integration)
    ensures !s.Initialized()
  {
    Uninitialized
  }

  /** The two lights `init` adds to the empty scene. */
  const Lights: seq<Node> := [AmbientLight(0xff_ffff, 0.5), DirectionalLight(0xff_ffff, 1.0, Vec3(0.0, 1.0, 0.0))]

  /** `init()`, with `aspect` standing for `innerWidth / innerHeight`: a fresh
      scene holding the two lights and a 45-degree camera with planes 1 and
      10000. `init` does not look at the previous state. */
  function Init(aspect: real): (s: Integration)
    ensures s.Initialized() && s.scene == Lights && s.frames == []
    ensures s.camera == OverlayCamera(Origin, None, 45.0, aspect, 1.0, 10000.0)
  {
    Ready(Lights, OverlayCamera(Origin, None, 45.0, aspect, 1.0, 10000.0), [])
  }

  /** `onWindowResize()`, with `aspect` standing for the new window ratio:
      ignored before `init`, otherwise only the camera's aspect changes. */
  function OnWindowResize(s: Integration, aspect: real): (s': Integration)
    ensures !s.Initialized() ==> s' == s
    ensures s.Initialized() ==>
              && s'.Initialized() && s'.scene == s.scene && s'.frames == s.frames
              && s'.camera.aspect == aspect
              && s'.camera == s.camera.(aspect := aspect)
  {
    match s
    case Uninitialized => s
    case Ready(scene, camera, frames) => Ready(scene, camera.(aspect := aspect), frames)
  }

  /** The camera part of `onCesiumPreRender()`: the overlay camera takes the
      globe camera's position, looks at position plus direction, converts the
      field of view to degrees and copies both planes; its aspect is kept. */
  function SyncCamera(cam: OverlayCamera, globe: GlobeCamera): (c: OverlayCamera)
    ensures c.position == globe.position
    ensures c.lookTarget.Some? && c.lookTarget.value.Minus(c.position) == globe.direction
    ensures DegreesToRadians(c.fov) == globe.fovy
    ensures c.near == globe.near && c.far == globe.far
    ensures c.aspect == cam.aspect
  {
    OverlayCamera(globe.position, Some(globe.position.Plus(globe.direction)),
                  RadiansToDegrees(globe.fovy), cam.aspect, globe.near, globe.far)
  }

  /** `onCesiumPreRender()`: ignored before `init`; otherwise the camera is
      synchronised and then one frame of the unchanged scene is rendered with
      the synchronised camera. */
  function OnCesiumPreRender(s: Integration, globe: GlobeCamera): (s': Integration)
    ensures !s.Initialized() ==> s' == s
    ensures s.Initialized() ==>
              && s'.Initialized() && s'.scene == s.scene
              && s'.camera == SyncCamera(s.camera, globe)
              && s'.frames == s.frames + [Frame(s.scene, s'.camera)]
  {
    match s
    case Uninitialized => s
    case Ready(scene, camera, frames) =>
      var c := SyncCamera(camera, globe);
      Ready(scene, c, frames + [Frame(scene, c)])
  }

  /** `addTurbineModel(position, options)`: runs `init` first when needed, then
      appends the built turbine to the scene and returns it. */
  function AddTurbineModel(s: Integration, position: Vec3, options: Options, aspect: real)
    : (r: (Integration, TurbineModel))
    ensures r.0.Initialized()
    ensures r.1 == Build(position, options)
    ensures s.Initialized() ==>
              r.0 == Ready(s.scene + [TurbineNode(r.1)], s.camera, s.frames)
    ensures !s.Initialized() ==>
              r.0 == Ready(Lights + [TurbineNode(r.1)], Init(aspect).camera, [])
  {
    var base := if s.Initialized() then s else Init(aspect);
    var t := Build(position, options);
    (Ready(base.scene + [TurbineNode(t)], base.camera, base.frames), t)
  }

  /** The camera after a frame depends only on the globe camera and the
      aspect ratio: two overlay cameras end up equal exactly when their aspect
      ratios were equal. */
  lemma SyncForgetsPrevious(c1: OverlayCamera, c2: OverlayCamera, globe: GlobeCamera)
    ensures SyncCamera(c1, globe) == SyncCamera(c2, globe) <==> c1.aspect == c2.aspect
  {
  }

  /** Synchronising twice with the same globe camera is synchronising once. */
  lemma SyncIdempotent(c: OverlayCamera, globe: GlobeCamera)
    ensures SyncCamera(SyncCamera(c, globe), globe) == SyncCamera(c, globe)
  {
  }

  /** A globe field of view of `Math.PI / 2` becomes 90 degrees. */
  lemma RightAngleFieldOfView(c: OverlayCamera, globe: GlobeCamera)
    requires globe.fovy == Pi / 2.0
    ensures SyncCamera(c, globe).fov == 90.0
  {
    RightAngleIsNinety();
  }

  /** The events the integration reacts to once its listeners are registered:
      a window resize to a new aspect ratio, or a frame of the globe. */
  datatype Event = Resize(aspect: real) | PreRender(globe: GlobeCamera)

  /** The state after one event. */
  function Step(s: Integration, e: Event): Integration {
    match e
    case Resize(aspect) => OnWindowResize(s, aspect)
    case PreRender(globe) => OnCesiumPreRender(s, globe)
  }

  /** The state after the events, in order. */
  function Replay(s: Integration, events: seq<Event>): Integration
    decreases |events|
  {
    if events == [] then s else Replay(Step(s, events[0]), events[1..])
  }

  /** Before `init` no sequence of resizes and frames, however interleaved,
      changes anything. */
  lemma {:induction false} IdleBeforeInit(events: seq<Event>)
    ensures Replay(Uninitialized, events) == Uninitialized
    decreases |events|
  {
    if events != [] {
      IdleBeforeInit(events[1..]);
    }
  }

  /** After `init`, any sequence of events keeps the scene and records one
      frame per globe frame, each of the unchanged scene. */
  lemma {:induction false} ReplayKeepsScene(s: Integration, events: seq<Event>)
    requires s.Initialized()
    ensures Replay(s, events).Initialized()
    ensures Replay(s, events).scene == s.scene
    ensures |Replay(s, events).frames| == |s.frames| + FrameCount(events)
    ensures Replay(s, events).frames[..|s.frames|] == s.frames
    ensures forall i :: |s.frames| <= i < |Replay(s, events).frames| ==>
              Replay(s, events).frames[i].scene == s.scene
    decreases |events|
  {
    if events != [] {
      var s1 := Step(s, events[0]);
      ReplayKeepsScene(s1, events[1..]);
      var f1, f := s1.frames, Replay(s, events).frames;
      assert f[..|f1|] == f1;
      assert f1[..|s.frames|] == s.frames;
      assert f[..|s.frames|] == f[..|f1|][..|s.frames|];
      assert forall i :: |s.frames| <= i < |f1| ==> f1[i].scene == s.scene;
      forall i | |s.frames| <= i < |f|
        ensures f[i].scene == s.scene
      {
        if i < |f1| {
          assert f[i] == f[..|f1|][i];
        }
      }
    }
  }

  /** How many globe frames a sequence of events holds. */
  function FrameCount(events: seq<Event>): nat
    decreases |events|
  {
    if events == [] then 0
    else (if events[0].PreRender? then 1 else 0) + FrameCount(events[1..])
  }

  /** The state after the events and then one more. */
  lemma {:induction false} ReplayAppend(s: Integration, events: seq<Event>, e: Event)
    ensures Replay(s, events + [e]) == Step(Replay(s, events), e)
    decreases |events|
  {
    if events != [] {
      assert (events + [e])[1..] == events[1..] + [e];
      ReplayAppend(Step(s, events[0]), events[1..], e);
    }
  }

  /** The aspect ratio a sequence of events leaves behind: that of its last
      resize, or `a` when it holds none. */
  function LastAspect(a: real, events: seq<Event>): real
    decreases |events|
  {
    if events == [] then a
    else if events[|events| - 1].Resize? then events[|events| - 1].aspect
    else LastAspect(a, events[..|events| - 1])
  }

  /** After `init`, the camera's aspect ratio is that of the last resize, or
      the one it started with when there was none. */
  lemma {:induction false} ReplayAspect(s: Integration, events: seq<Event>)
    requires s.Initialized()
    ensures Replay(s, events).Initialized()
    ensures Replay(s, events).camera.aspect == LastAspect(s.camera.aspect, events)
    decreases |events|
  {
    ReplayKeepsScene(s, events);
    if events != [] {
      var front, e := events[..|events| - 1], events[|events| - 1];
      assert events == front + [e];
      ReplayAspect(s, front);
      ReplayAppend(s, front, e);
    }
  }

  /** After `init` and any events, a globe frame is drawn with a camera at the
      globe camera's position, with its field of view and planes, and with the
      aspect ratio of the last resize (or the initial one when there was none). */
  lemma LastFrameCamera(s: Integration, events: seq<Event>, globe: GlobeCamera)
    requires s.Initialized()
    ensures Replay(s, events + [PreRender(globe)]).Initialized()
    ensures var f := Replay(s, events + [PreRender(globe)]).frames;
            && |f| > 0
            && f[|f| - 1].scene == s.scene
            && f[|f| - 1].camera.position == globe.position
            && DegreesToRadians(f[|f| - 1].camera.fov) == globe.fovy
            && f[|f| - 1].camera.near == globe.near && f[|f| - 1].camera.far == globe.far
            && f[|f| - 1].camera.aspect == LastAspect(s.camera.aspect, events)
  {
    ReplayAppend(s, events, PreRender(globe));
    ReplayAspect(s, events);
    ReplayKeepsScene(s, events);
  }

  /** `animate(delta)` called on the group `addTurbineModel` returned. That
      group is the very object inserted into the scene, here the node at `i`,
      so the turn happens to the scene's node; nothing else changes. */
  function AnimateNode(s: Integration, i: nat, delta: real): (s': Integration)
    requires s.Initialized() && i < |s.scene| && s.scene[i].TurbineNode?
    ensures s'.Initialized() && s'.camera == s.camera && s'.frames == s.frames
    ensures |s'.scene| == |s.scene|
    ensures s'.scene[i] == TurbineNode(AnimateTurbine(s.scene[i].model, delta))
    ensures forall j :: 0 <= j < |s.scene| && j != i ==> s'.scene[j] == s.scene[j]
  {
    s.(scene := s.scene[i := TurbineNode(AnimateTurbine(s.scene[i].model, delta))])
  }

  /** A turbine added and then animated is drawn turned in the next frame: the
      scene holds the turned turbine where it was added, its rotor advanced by
      speed times delta. */
  lemma AnimatedTurbineIsRendered(s: Integration, position: Vec3, options: Options,
                                  aspect: real, delta: real, globe: GlobeCamera)
    ensures var (s1, t) := AddTurbineModel(s, position, options, aspect);
            var i := |s1.scene| - 1;
            var s3 := OnCesiumPreRender(AnimateNode(s1, i, delta), globe);
            var f := s3.frames[|s3.frames| - 1];
            && f.scene[i] == TurbineNode(AnimateTurbine(t, delta))
            && f.scene[i].model.rotor.rotationZ == t.rotor.rotationZ + t.rotor.rotationSpeed * delta
  {
  }

  /** A turbine added before the first frame is drawn in that frame, from the
      globe camera's position. */
  lemma AddedTurbineIsRendered(s: Integration, position: Vec3, options: Options,
                               aspect: real, globe: GlobeCamera)
    ensures var (s1, t) := AddTurbineModel(s, position, options, aspect);
            var s2 := OnCesiumPreRender(s1, globe);
            var f := s2.frames[|s2.frames| - 1];
            && TurbineNode(t) in f.scene
            && f.camera.position == globe.position
  {
    var (s1, t) := AddTurbineModel(s, position, options, aspect);
    assert s1.scene[|s1.scene| - 1] == TurbineNode(t);
  }
}
