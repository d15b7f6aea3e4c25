/**
 The parsed document tree that the profiler walks, the Python type of each
 node as `type(v)` reports it, the `isinstance` relation between those types,
 and the failures the profiler can raise.
 */
module JsonTree {

  /** A value produced by `json.load`: a dict keeps its keys in insertion order. */
  datatype Json =
    | Object(members: seq<Member>)
    | List(items: seq<Json>)
    | Str(s: string)
    | Int(i: int)
    | Float(f: real)
    | Bool(b: bool)
    | Null

  /** One `(k, v)` pair of a dict, as `d.items()` yields it. */
  datatype Member = Member(key: string, value: Json)

  /** The Python class of a parsed value: dict, list, str, int, float, bool, NoneType. */
  datatype PyType = DictType | ListType | StrType | IntType | FloatType | BoolType | NoneType

  /** `type(v)` */
  function TypeOf(j: Json): PyType
  {
    match j
    case Object(_) => DictType
    case List(_) => ListType
    case Str(_) => StrType
    case Int(_) => IntType
    case Float(_) => FloatType
    case Bool(_) => BoolType
    case Null => NoneType
  }

  /** `issubclass(a, b)` for the seven classes: `bool` is the only subclass of another one, `int`. */
  predicate IsSubclass(a: PyType, b: PyType)
  {
    a == b || (a == BoolType && b == IntType)
  }

  /** `isinstance(j, t)` */
  predicate IsInstance(j: Json, t: PyType)
  {
    IsSubclass(TypeOf(j), t)
  }

  /** `issubclass` on these classes is a partial order: reflexive, antisymmetric and transitive. */
  lemma SubclassOrder(a: PyType, b: PyType, c: PyType)
    ensures IsSubclass(a, a)
    ensures IsSubclass(a, b) && IsSubclass(b, a) ==> a == b
    ensures IsSubclass(a, b) && IsSubclass(b, c) ==> IsSubclass(a, c)
  {
  }

  /** A value is an instance of its own class, and of another class only when it is a `bool` tested against `int`. */
  lemma InstanceRule(j: Json, t: PyType)
    ensures IsInstance(j, TypeOf(j))
    ensures IsInstance(j, t) <==> TypeOf(j) == t || (j.Bool? && t == IntType)
  {
  }

  /** The exceptions the profiling code can raise on a parsed tree. */
  datatype Failure =
    | IndexError(key: string)       // `v[0]` on the empty list stored under `key`
    | NoAppend(key: string)         // `columns[key].append`: a `str` has no attribute `append`
    | NoItems                       // `d.items()` on a root that is not a dict
    | JoinTypeError                 // `' '.join` met an item that is not a `str`
    | StatisticsError               // `statistics.mean` of an empty list

  datatype Result<+T> = Ok(value: T) | Err(error: Failure)

  datatype Option<+T> = None | Some(value: T)
}
