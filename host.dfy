/** The parts of the CAD host's object model that the export script reads, as
    plain records. Every number the host computes (centre of mass, moments of
    inertia, transforms, joint geometry) is a value of the type parameter N:
    the script never does arithmetic on them, it only copies them. */
module Host {

  datatype Option<+T> = None | Some(value: T)

  /** The outcome of reading one attribute of a host object: either a value,
      or an exception (a missing occurrence, an unsupported geometry, ...). */
  datatype Read<+T> = Ok(value: T) | Raises

  datatype Material = Material(name: string)

  /** What the host's moments-of-inertia query answers: a success flag
      followed by the six moments in the host's order xx, yy, zz, xy, yz, xz. */
  datatype Moments<+N> = Moments(ok: bool, xx: N, yy: N, zz: N, xy: N, yz: N, xz: N)

  /** A component definition; `material` is None when the host has none. */
  datatype Component<+N> = Component(
    name: string,
    material: Option<Material>,
    centerOfMass: seq<N>,
    moments: Moments<N>)

  /** An occurrence: one placement of a component in the assembly. */
  datatype Occurrence<+N> = Occurrence(name: string, component: Component<N>)

  /** A joint. Its name can always be read; every other attribute the script
      reads inside its exception handler may raise. */
  datatype Joint<+N> = Joint(
    name: string,
    occurrenceOne: Read<string>,
    occurrenceTwo: Read<string>,
    jointType: Read<nat>,
    isSuppressed: Read<bool>,
    origin: Read<seq<N>>,
    primaryAxis: Read<seq<N>>)

  /** The Python values the script stores in its exported lists and dicts. */
  datatype Value<+N> = Str(s: string) | Int(i: int) | Bool(b: bool) | Num(n: N) | Vec(v: seq<N>)
}
