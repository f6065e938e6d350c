/** The procedural wind turbine of `addTurbineModel` in
    js/cesium-three-integration.js: option merging, the placement of tower,
    nacelle and rotor, the three blade angles and the rotor's per-frame
    `animate(delta)` hook. Geometry is recorded by its defining dimensions;
    tessellation, materials and the blade outline are not modelled. */
module Turbine {
  import opened Optional
  import opened Geometry

  /** The caller's `options` object: a field is `Some` when the caller supplied
      that key. */
  datatype Options = Options(
    height: Option<real>,
    rotorDiameter: Option<real>,
    color: Option<int>,
    rotationSpeed: Option<real>)

  /** `{}`: no option supplied. */
  const NoOptions: Options := Options(None, None, None, None)

  /** The merged configuration `{ ...defaults, ...options }`. */
  datatype Config = Config(height: real, rotorDiameter: real, color: int, rotationSpeed: real)

  const White: int := 0xff_ffff
  const HubGrey: int := 0x66_6666

  /** The defaults: height 120, rotor diameter 90, white, 0.01 per time unit. */
  const Defaults: Config := Config(120.0, 90.0, White, 0.01)

  /** Every option as supplied. */
  function Supplying(c: Config): Options {
    Options(Some(c.height), Some(c.rotorDiameter), Some(c.color), Some(c.rotationSpeed))
  }

  /** The spread merge: each key the caller supplied wins, every other key
      keeps its default. */
  function Merge(o: Options): (c: Config)
    ensures o.height.Some? ==> c.height == o.height.value
    ensures o.height.None? ==> c.height == 120.0
    ensures o.rotorDiameter.Some? ==> c.rotorDiameter == o.rotorDiameter.value
    ensures o.rotorDiameter.None? ==> c.rotorDiameter == 90.0
    ensures o.color.Some? ==> c.color == o.color.value
    ensures o.color.None? ==> c.color == 0xff_ffff
    ensures o.rotationSpeed.Some? ==> c.rotationSpeed == o.rotationSpeed.value
    ensures o.rotationSpeed.None? ==> c.rotationSpeed == 0.01
  {
    Config(
      o.height.GetOr(Defaults.height),
      o.rotorDiameter.GetOr(Defaults.rotorDiameter),
      o.color.GetOr(Defaults.color),
      o.rotationSpeed.GetOr(Defaults.rotationSpeed))
  }

  /** With no options the configuration is the defaults. */
  lemma MergeNothing()
    ensures Merge(NoOptions) == Defaults
  {
  }

  /** Supplying every key reproduces the caller's configuration exactly. */
  lemma MergeEverything(c: Config)
    ensures Merge(Supplying(c)) == c
  {
  }

  /** Keys are merged independently: supplying one key changes that field of
      the configuration and nothing else, for each of the four keys. */
  lemma MergeKeysIndependent(o: Options, h: real, d: real, col: int, speed: real)
    ensures Merge(o.(height := Some(h))) == Merge(o).(height := h)
    ensures Merge(o.(rotorDiameter := Some(d))) == Merge(o).(rotorDiameter := d)
    ensures Merge(o.(color := Some(col))) == Merge(o).(color := col)
    ensures Merge(o.(rotationSpeed := Some(speed))) == Merge(o).(rotationSpeed := speed)
  {
  }

  /** The defining dimensions of each part's geometry. */
  datatype Shape =
    | Cylinder(radiusTop: real, radiusBottom: real, height: real)
    | Box(width: real, height: real, depth: real)
    | Sphere(radius: real)
    | BladeProfile(rotorDiameter: real, depth: real)

  /** A mesh placed in its parent group: shape, colour, offset and rotation
      about the z axis in radians. */
  datatype Mesh = Mesh(shape: Shape, color: int, position: Vec3, rotationZ: real)

  /** The rotor group: its offset in the turbine, its accumulated rotation, the
      speed its `animate` hook uses, the hub and the blades. */
  datatype Rotor = Rotor(position: Vec3, rotationZ: real, rotationSpeed: real, hub: Mesh, blades: seq<Mesh>)

  /** The turbine group: its world position and its three parts. */
  datatype TurbineModel = TurbineModel(position: Vec3, tower: Mesh, nacelle: Mesh, rotor: Rotor)

  /** A third of a turn, `Math.PI * 2 / 3`. */
  const ThirdTurn: real := Pi * 2.0 / 3.0

  /** The rotation of blade `i` about the rotor axis. */
  function BladeAngle(i: nat): real {
    ThirdTurn * (i as real)
  }

  /** The blades of the loop `for (let i = 0; i < 3; i++)`: the same extruded
      white profile, turned by `BladeAngle(i)`. */
  function Blades(c: Config): (bs: seq<Mesh>)
    ensures |bs| == 3
    ensures forall i :: 0 <= i < |bs| ==>
              bs[i] == Mesh(BladeProfile(c.rotorDiameter, 0.5), White, Origin, BladeAngle(i))
  {
    seq(3, i requires 0 <= i => Mesh(BladeProfile(c.rotorDiameter, 0.5), White, Origin, BladeAngle(i)))
  }

  /** `addTurbineModel(position, options)` apart from the scene insertion: the
      tapered tower centred at half its height, the 10 x 5 x 5 nacelle on top,
      and the rotor at the tower top, 3 units forward, holding a grey hub and
      three blades, not yet turned. */
  function Build(position: Vec3, options: Options): (t: TurbineModel)
    ensures t.position == position
    ensures t.tower.shape.Cylinder? && t.tower.shape.height == Merge(options).height
    ensures t.tower.position == Vec3(0.0, Merge(options).height / 2.0, 0.0)
    ensures t.nacelle.shape == Box(10.0, 5.0, 5.0)
    ensures t.nacelle.position == Vec3(0.0, Merge(options).height + 2.5, 0.0)
    ensures t.rotor.position == Vec3(0.0, Merge(options).height, 3.0)
    ensures t.rotor.hub.shape == Sphere(2.0) && |t.rotor.blades| == 3
    ensures t.rotor.rotationZ == 0.0 && t.rotor.rotationSpeed == Merge(options).rotationSpeed
  {
    var c := Merge(options);
    TurbineModel(
      position,
      Mesh(Cylinder(2.0, 4.0, c.height), c.color, Vec3(0.0, c.height / 2.0, 0.0), 0.0),
      Mesh(Box(10.0, 5.0, 5.0), c.color, Vec3(0.0, c.height + 2.5, 0.0), 0.0),
      Rotor(Vec3(0.0, c.height, 3.0), 0.0, c.rotationSpeed,
            Mesh(Sphere(2.0), HubGrey, Origin, 0.0), Blades(c)))
  }

  /** Where a point given relative to the turbine group lies in the world. */
  function World(t: TurbineModel, local: Vec3): Vec3 {
    t.position.Plus(local)
  }

  /** The tower stands on the turbine's base point and reaches the configured
      height: its base is at y = 0 of the group and its top at y = height. */
  lemma TowerSpansHeight(position: Vec3, options: Options)
    ensures var t := Build(position, options);
            && t.tower.position.y - t.tower.shape.height / 2.0 == 0.0
            && t.tower.position.y + t.tower.shape.height / 2.0 == Merge(options).height
            && World(t, t.tower.position).x == position.x
            && World(t, t.tower.position).z == position.z
  {
  }

  /** The nacelle rests on the tower top, and the rotor hub is at the tower
      top, in front of the nacelle's front face. */
  lemma NacelleAndRotorOnTop(position: Vec3, options: Options)
    ensures var t := Build(position, options);
            var top := t.tower.position.y + t.tower.shape.height / 2.0;
            && t.nacelle.position.y - t.nacelle.shape.height / 2.0 == top
            && t.rotor.position == Vec3(0.0, top, 3.0)
            && t.rotor.position.z > t.nacelle.position.z + t.nacelle.shape.depth / 2.0
  {
  }

  /** The three blades are a third of a turn apart, starting at 0: 0, 2 pi / 3
      and 4 pi / 3, and a further third of a turn closes the circle. */
  lemma BladesEvenlySpaced(position: Vec3, options: Options)
    ensures var bs := Build(position, options).rotor.blades;
            && |bs| == 3
            && bs[0].rotationZ == 0.0
            && bs[1].rotationZ == 2.0 * Pi / 3.0
            && bs[2].rotationZ == 4.0 * Pi / 3.0
            && (forall i :: 0 <= i < 2 ==> bs[i + 1].rotationZ - bs[i].rotationZ == ThirdTurn)
            && bs[2].rotationZ + ThirdTurn == 2.0 * Pi
  {
    var bs := Build(position, options).rotor.blades;
    assert bs[0].rotationZ == BladeAngle(0);
    assert bs[1].rotationZ == BladeAngle(1);
    assert bs[2].rotationZ == BladeAngle(2);
  }

  /** The tower and nacelle take the configured colour; the hub is grey and
      the blades are white whatever colour was asked for. */
  lemma PartColours(position: Vec3, options: Options)
    ensures var t := Build(position, options);
            && t.tower.color == Merge(options).color
            && t.nacelle.color == Merge(options).color
            && t.rotor.hub.color == 0x66_6666
            && forall i :: 0 <= i < |t.rotor.blades| ==> t.rotor.blades[i].color == 0xff_ffff
  {
  }

  /** With height 200 the tower centre is at 100 and the nacelle at 202.5. */
  lemma TallTurbine(position: Vec3)
    ensures var t := Build(position, NoOptions.(height := Some(200.0)));
            t.tower.position.y == 100.0 && t.nacelle.position.y == 202.5
  {
  }

  /** The `animate(delta)` hook, called with `this` bound to the rotor group:
      the rotation grows by speed times delta and nothing else changes. */
  function Animate(r: Rotor, delta: real): (r': Rotor)
    ensures r'.rotationZ - r.rotationZ == r.rotationSpeed * delta
    ensures r'.position == r.position && r'.rotationSpeed == r.rotationSpeed
    ensures r'.hub == r.hub && r'.blades == r.blades
    ensures r.rotationSpeed >= 0.0 && delta >= 0.0 ==> r'.rotationZ >= r.rotationZ
  {
    r.(rotationZ := r.rotationZ + r.rotationSpeed * delta)
  }

  /** Animating the turbine turns its rotor and leaves the rest in place. */
  function AnimateTurbine(t: TurbineModel, delta: real): (t': TurbineModel)
    ensures t'.position == t.position && t'.tower == t.tower && t'.nacelle == t.nacelle
    ensures t'.rotor == Animate(t.rotor, delta)
  {
    t.(rotor := Animate(t.rotor, delta))
  }

  // ---------------------------------------------------------------------
  // The hook as written: a plain function stored on `rotorGroup.userData`

  /** The object a call of the stored hook binds `this` to: the rotor group
      itself, or the `userData` object the hook is stored on, which is what the
      call `rotorGroup.userData.animate(delta)` binds. `userData` holds the
      speed and the hook but no `rotation`. */
  datatype Receiver = GroupReceiver(rotor: Rotor) | UserDataReceiver(rotationSpeed: real)

  /** What a call of the hook comes to: the turned rotor, or the `TypeError`
      raised by reading `z` of the missing `this.rotation`. */
  datatype HookOutcome = Turned(rotor: Rotor) | TypeError

  /** The stored hook run with `this` bound to `receiver`. */
  function AnimateHook(receiver: Receiver, delta: real): (o: HookOutcome)
    ensures o.TypeError? <==> receiver.UserDataReceiver?
    ensures receiver.GroupReceiver? ==>
              o.rotor.rotationZ == receiver.rotor.rotationZ + receiver.rotor.rotationSpeed * delta
  {
    match receiver
    case GroupReceiver(r) => Turned(Animate(r, delta))
    case UserDataReceiver(_) => TypeError
  }

  /** Called where it is stored, `rotorGroup.userData.animate(delta)`, the hook
      of a freshly built turbine throws instead of turning the rotor. */
  lemma HookOnUserDataThrows(position: Vec3, options: Options, delta: real)
    ensures var r := Build(position, options).rotor;
            AnimateHook(UserDataReceiver(r.rotationSpeed), delta) == TypeError
  {
  }

  /** Bound to the rotor group, the hook is `Animate`. */
  lemma HookOnGroupIsAnimate(r: Rotor, delta: real)
    ensures AnimateHook(GroupReceiver(r), delta) == Turned(Animate(r, delta))
  {
  }

  /** Two frames add up: animating by `a` and then `b` is animating by `a + b`. */
  lemma AnimateAccumulates(r: Rotor, a: real, b: real)
    ensures Animate(Animate(r, a), b) == Animate(r, a + b)
  {
    assert r.rotationSpeed * a + r.rotationSpeed * b == r.rotationSpeed * (a + b);
  }

  /** A zero delta leaves the rotor as it is, and a negative delta undoes a
      positive one. */
  lemma AnimateZeroAndUndo(r: Rotor, d: real)
    ensures Animate(r, 0.0) == r
    ensures Animate(Animate(r, d), -d) == r
  {
  }

  /** With the default speed a delta of 10 turns a new rotor by 0.1. */
  lemma AnimateDefaultTen(position: Vec3)
    ensures Animate(Build(position, NoOptions).rotor, 10.0).rotationZ == 0.1
  {
  }
}
