/** The MissileConfig record (Core.cs) that one config file is parsed into:
    eleven tuning fields, each starting at zero, and the table of the
    eleven lower-case key names that select them. */
module MissileConfigs {
  import opened Wrappers
  import opened Text

  /** A float value. Nothing in the parser computes with numbers; they are
      produced by float.Parse and copied, so their arithmetic is not modelled. */
  type Num = real

  /** UnityEngine.Vector3, as a plain value. */
  datatype Vector3 = Vector3(x: Num, y: Num, z: Num)

  const ZeroVector := Vector3(0.0, 0.0, 0.0)

  datatype MissileConfig = MissileConfig(
    // missile parameters
    burnTime: Num,
    turnRate: Num,
    thrust: Num,
    guidanceTime: Num,
    fuel: Num,
    explosionScale: Num,
    explosionRadius: Num,
    dragCoeffs: Vector3,
    // seeker parameters
    gimbalRange: Num,
    lockThreshold: Num,
    signalStrength: Num)

  /** `new MissileConfig()`: every float is 0 and the drag vector is zero. */
  const DefaultConfig := MissileConfig(0.0, 0.0, 0.0, 0.0, 0.0, 0.0, 0.0, ZeroVector, 0.0, 0.0, 0.0)

  /** The eleven properties of MissileConfig. */
  datatype Field =
    | BurnTime | TurnRate | Thrust | GuidanceTime | Fuel
    | ExplosionScale | ExplosionRadius | DragCoeffs
    | GimbalRange | LockThreshold | SignalStrength

  /** What a field holds: a float, or the drag vector. */
  datatype Value = Scalar(n: Num) | Vector(v: Vector3)

  predicate Fits(f: Field, v: Value) {
    v.Vector? <==> f == DragCoeffs
  }

  /** The `case` label of the key switch that selects each field. */
  function KeyName(f: Field): string {
    match f
    case BurnTime => "burntime"
    case TurnRate => "turnrate"
    case Thrust => "thrust"
    case GuidanceTime => "guidancetime"
    case Fuel => "fuel"
    case ExplosionScale => "explosionscale"
    case ExplosionRadius => "explosionradius"
    case DragCoeffs => "dragcoeffs"
    case GimbalRange => "gimbalrange"
    case LockThreshold => "lockthreshold"
    case SignalStrength => "signalstrength"
  }

  /** Every field, in the order of the `case` labels. */
  const AllFields: seq<Field> := [BurnTime, TurnRate, Thrust, GuidanceTime, Fuel,
    ExplosionScale, ExplosionRadius, DragCoeffs, GimbalRange, LockThreshold, SignalStrength]

  /** The first of `fields` whose name is `k`. */
  function FindField(k: string, fields: seq<Field>): (r: Option<Field>)
    ensures r.Some? ==> r.value in fields && KeyName(r.value) == k
    ensures r.None? ==> forall f | f in fields :: KeyName(f) != k
  {
    if fields == [] then None
    else if KeyName(fields[0]) == k then Some(fields[0])
    else FindField(k, fields[1..])
  }

  lemma AllFieldsListed()
    ensures forall f: Field :: f in AllFields
  {
    forall f: Field ensures f in AllFields {
      match f
      case BurnTime => assert AllFields[0] == f;
      case TurnRate => assert AllFields[1] == f;
      case Thrust => assert AllFields[2] == f;
      case GuidanceTime => assert AllFields[3] == f;
      case Fuel => assert AllFields[4] == f;
      case ExplosionScale => assert AllFields[5] == f;
      case ExplosionRadius => assert AllFields[6] == f;
      case DragCoeffs => assert AllFields[7] == f;
      case GimbalRange => assert AllFields[8] == f;
      case LockThreshold => assert AllFields[9] == f;
      case SignalStrength => assert AllFields[10] == f;
    }
  }

  /** `switch (key.ToLower())`: the field a trimmed key selects, if any.
      The match is case-insensitive and selects a field exactly when the
      lower-cased key is that field's name. */
  function LookupKey(key: string): (r: Option<Field>)
    ensures r.Some? ==> ToLower(key) == KeyName(r.value)
  {
    FindField(ToLower(key), AllFields)
  }

  /** A key selects field `f` exactly when its lower-cased form is the
      case label of `f`. */
  lemma LookupKeyIff(key: string, f: Field)
    ensures LookupKey(key) == Some(f) <==> ToLower(key) == KeyName(f)
  {
    AllFieldsListed();
    if ToLower(key) == KeyName(f) {
      var r := FindField(ToLower(key), AllFields);
      assert r.Some?;
      KeyNameInjective(r.value, f);
    }
  }

  /** No two case labels are the same. */
  lemma KeyNameInjective(f: Field, g: Field)
    requires KeyName(f) == KeyName(g)
    ensures f == g
  {
  }

  /** Each `case` label is lower case and names one field, so the label
      itself, in any mix of cases, selects exactly its own field. */
  lemma LookupKeyName(f: Field)
    ensures LookupKey(KeyName(f)) == Some(f)
  {
    var k := KeyName(f);
    assert ToLower(k) == k by {
      forall i | 0 <= i < |k| ensures LowerChar(k[i]) == k[i] {
        match f
        case BurnTime =>
        case TurnRate =>
        case Thrust =>
        case GuidanceTime =>
        case Fuel =>
        case ExplosionScale =>
        case ExplosionRadius =>
        case DragCoeffs =>
        case GimbalRange =>
        case LockThreshold =>
        case SignalStrength =>
      }
    }
    LookupKeyIff(k, f);
  }

  /** The property getter of field `f`. */
  function Get(c: MissileConfig, f: Field): (v: Value)
    ensures Fits(f, v)
  {
    match f
    case BurnTime => Scalar(c.burnTime)
    case TurnRate => Scalar(c.turnRate)
    case Thrust => Scalar(c.thrust)
    case GuidanceTime => Scalar(c.guidanceTime)
    case Fuel => Scalar(c.fuel)
    case ExplosionScale => Scalar(c.explosionScale)
    case ExplosionRadius => Scalar(c.explosionRadius)
    case DragCoeffs => Vector(c.dragCoeffs)
    case GimbalRange => Scalar(c.gimbalRange)
    case LockThreshold => Scalar(c.lockThreshold)
    case SignalStrength => Scalar(c.signalStrength)
  }

  /** The property setter of field `f`: it writes that field and no other. */
  function Set(c: MissileConfig, f: Field, v: Value): (r: MissileConfig)
    requires Fits(f, v)
    ensures Get(r, f) == v
    ensures forall g: Field | g != f :: Get(r, g) == Get(c, g)
  {
    match f
    case BurnTime => c.(burnTime := v.n)
    case TurnRate => c.(turnRate := v.n)
    case Thrust => c.(thrust := v.n)
    case GuidanceTime => c.(guidanceTime := v.n)
    case Fuel => c.(fuel := v.n)
    case ExplosionScale => c.(explosionScale := v.n)
    case ExplosionRadius => c.(explosionRadius := v.n)
    case DragCoeffs => c.(dragCoeffs := v.v)
    case GimbalRange => c.(gimbalRange := v.n)
    case LockThreshold => c.(lockThreshold := v.n)
    case SignalStrength => c.(signalStrength := v.n)
  }

  /** Every field of a fresh MissileConfig is zero. */
  lemma DefaultIsZero(f: Field)
    ensures Get(DefaultConfig, f) == if f == DragCoeffs then Vector(ZeroVector) else Scalar(0.0)
  {
  }

  /** Two configs agreeing on every field are the same config. */
  lemma FieldsDetermineConfig(c: MissileConfig, d: MissileConfig)
    requires forall f: Field :: Get(c, f) == Get(d, f)
    ensures c == d
  {
    assert Get(c, BurnTime) == Get(d, BurnTime);
    assert Get(c, TurnRate) == Get(d, TurnRate);
    assert Get(c, Thrust) == Get(d, Thrust);
    assert Get(c, GuidanceTime) == Get(d, GuidanceTime);
    assert Get(c, Fuel) == Get(d, Fuel);
    assert Get(c, ExplosionScale) == Get(d, ExplosionScale);
    assert Get(c, ExplosionRadius) == Get(d, ExplosionRadius);
    assert Get(c, DragCoeffs) == Get(d, DragCoeffs);
    assert Get(c, GimbalRange) == Get(d, GimbalRange);
    assert Get(c, LockThreshold) == Get(d, LockThreshold);
    assert Get(c, SignalStrength) == Get(d, SignalStrength);
  }
}
