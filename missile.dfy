/** Stand-ins for the game objects the mod writes to, and
    ApplyConfigToMissile (Core.cs lines 156-181), which copies a parsed
    MissileConfig onto them. */
module Missiles {
  import opened Wrappers
  import opened MissileConfigs
  import opened Log

  /** Il2Cpp.IRSeeker: the three fields the mod writes. */
  class Seeker {
    var gimbalRange: Num
    var lockThreshold: Num
    var signalStrength: Num

    constructor (gimbalRange: Num, lockThreshold: Num, signalStrength: Num)
      ensures this.gimbalRange == gimbalRange
      ensures this.lockThreshold == lockThreshold
      ensures this.signalStrength == signalStrength
    {
      this.gimbalRange := gimbalRange;
      this.lockThreshold := lockThreshold;
      this.signalStrength := signalStrength;
    }
  }

  /** Il2Cpp.Missile: the eight fields the mod writes, the display name of
      its part, and the IRSeeker component of its game object, if it has one. */
  class Missile {
    const displayName: string
    const seeker: Seeker?
    var burnTime: Num
    var turnRate: Num
    var thrust: Num
    var guidanceTime: Num
    var fuel: Num
    var explosionScale: Num
    var radius: Num
    var dragCoeffs: Vector3

    constructor (displayName: string, seeker: Seeker?)
      ensures this.displayName == displayName && this.seeker == seeker
    {
      this.displayName := displayName;
      this.seeker := seeker;
      burnTime, turnRate, thrust, guidanceTime := 0.0, 0.0, 0.0, 0.0;
      fuel, explosionScale, radius, dragCoeffs := 0.0, 0.0, 0.0, ZeroVector;
    }
  }

  /** The values of a seeker's three fields. */
  datatype SeekerState = SeekerState(gimbalRange: Num, lockThreshold: Num, signalStrength: Num)

  /** The values of a missile's eight fields and of its seeker's, if any. */
  datatype MissileState = MissileState(
    burnTime: Num, turnRate: Num, thrust: Num, guidanceTime: Num, fuel: Num,
    explosionScale: Num, radius: Num, dragCoeffs: Vector3,
    seeker: Option<SeekerState>)

  /** What the mod can observe of a missile. */
  function State(m: Missile): (s: MissileState)
    reads m, m.seeker
    ensures s.seeker.Some? <==> m.seeker != null
  {
    MissileState(m.burnTime, m.turnRate, m.thrust, m.guidanceTime, m.fuel,
      m.explosionScale, m.radius, m.dragCoeffs,
      if m.seeker == null then None
      else Some(SeekerState(m.seeker.gimbalRange, m.seeker.lockThreshold, m.seeker.signalStrength)))
  }

  /** The fields that live on the seeker rather than on the missile. */
  predicate IsSeekerField(f: Field) {
    f == GimbalRange || f == LockThreshold || f == SignalStrength
  }

  /** The attribute of a missile that config field `f` is copied to: the
      same name, except that ExplosionRadius goes to `radius`. A seeker
      field of a missile without a seeker is None. */
  function Attribute(s: MissileState, f: Field): Option<Value> {
    match f
    case BurnTime => Some(Scalar(s.burnTime))
    case TurnRate => Some(Scalar(s.turnRate))
    case Thrust => Some(Scalar(s.thrust))
    case GuidanceTime => Some(Scalar(s.guidanceTime))
    case Fuel => Some(Scalar(s.fuel))
    case ExplosionScale => Some(Scalar(s.explosionScale))
    case ExplosionRadius => Some(Scalar(s.radius))
    case DragCoeffs => Some(Vector(s.dragCoeffs))
    case GimbalRange => if s.seeker.None? then None else Some(Scalar(s.seeker.value.gimbalRange))
    case LockThreshold => if s.seeker.None? then None else Some(Scalar(s.seeker.value.lockThreshold))
    case SignalStrength => if s.seeker.None? then None else Some(Scalar(s.seeker.value.signalStrength))
  }

  /** The state ApplyConfigToMissile leaves behind. */
  function Applied(s: MissileState, c: MissileConfig): MissileState {
    MissileState(c.burnTime, c.turnRate, c.thrust, c.guidanceTime, c.fuel,
      c.explosionScale, c.explosionRadius, c.dragCoeffs,
      if s.seeker.None? then None
      else Some(SeekerState(c.gimbalRange, c.lockThreshold, c.signalStrength)))
  }

  /** Applying a config writes every one of its fields, whatever the missile
      held before: the eight missile fields always (so a field the file did
      not mention becomes 0), and the three seeker fields exactly when there
      is a seeker. */
  lemma AppliedAttributes(s: MissileState, c: MissileConfig)
    ensures Applied(s, c).seeker.Some? <==> s.seeker.Some?
    ensures forall f: Field :: (Attribute(Applied(s, c), f) ==
      if IsSeekerField(f) && s.seeker.None? then None else Some(Get(c, f)))
  {
    forall f: Field
      ensures Attribute(Applied(s, c), f) ==
        if IsSeekerField(f) && s.seeker.None? then None else Some(Get(c, f))
    {
      match f
      case BurnTime =>
      case TurnRate =>
      case Thrust =>
      case GuidanceTime =>
      case Fuel =>
      case ExplosionScale =>
      case ExplosionRadius =>
      case DragCoeffs =>
      case GimbalRange =>
      case LockThreshold =>
      case SignalStrength =>
    }
  }

  /** Nothing of the old values survives an apply, and applying twice is
      the same as applying once. */
  lemma AppliedOverwritesAll(s: MissileState, t: MissileState, c: MissileConfig)
    requires s.seeker.Some? <==> t.seeker.Some?
    ensures Applied(s, c) == Applied(t, c)
    ensures Applied(Applied(s, c), c) == Applied(s, c)
  {
  }

  /** Lines 156-181: copy the eight missile fields, then the three seeker
      fields if the missile's game object has an IRSeeker, or else log a
      warning. */
  method ApplyConfigToMissile(missile: Missile, config: MissileConfig) returns (log: seq<LogEntry>)
    modifies missile, missile.seeker
    ensures State(missile) == Applied(old(State(missile)), config)
    ensures log == if missile.seeker == null then [NoSeekerComponent(missile.displayName)] else []
  {
    missile.burnTime := config.burnTime;
    missile.turnRate := config.turnRate;
    missile.thrust := config.thrust;
    missile.guidanceTime := config.guidanceTime;
    missile.fuel := config.fuel;
    missile.explosionScale := config.explosionScale;
    missile.radius := config.explosionRadius;
    missile.dragCoeffs := config.dragCoeffs;

    var seeker := missile.seeker;
    if seeker != null {
      seeker.gimbalRange := config.gimbalRange;
      seeker.lockThreshold := config.lockThreshold;
      seeker.signalStrength := config.signalStrength;
      log := [];
    } else {
      log := [NoSeekerComponent(missile.displayName)];
    }
  }
}
