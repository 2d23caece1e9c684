/**
  The policy object every component reads: the key mapping table, the
  predefined-value table, phase ordering, the parameter-count ceiling and the
  null / no-input flags.
 */
module Configuration {
  import opened Wrappers
  import opened PhpValues

  /** `ReflectionMethod::IS_PUBLIC` and `ReflectionProperty::IS_PUBLIC`. */
  const IsPublic: int := 1

  datatype Config = Config(
    mapping: map<string, Key>,
    predefined: map<string, Value>,
    methodsFirst: bool,
    filterMethods: int,
    filterProperties: int,
    maxParameterCount: int,
    nullIsAllowed: bool,
    noInputIsAllowed: bool,
    usePropertyTransformation: bool
  )

  /** A freshly constructed configuration. */
  function Default(): (c: Config)
    ensures c.mapping == map[] && c.predefined == map[]
    ensures c.methodsFirst && c.maxParameterCount == 1
    ensures c.filterMethods == IsPublic && c.filterProperties == IsPublic
    ensures c.nullIsAllowed && !c.noInputIsAllowed
    ensures c.usePropertyTransformation
  {
    Config(map[], map[], true, IsPublic, IsPublic, 1, true, false, true)
  }

  /** `getMapped`: one lookup in the mapping table, the key itself when unmapped. */
  function GetMapped(c: Config, key: string): (k: Key)
    ensures key in c.mapping ==> k == c.mapping[key]
    ensures key !in c.mapping ==> k == KStr(key)
  {
    if key in c.mapping then c.mapping[key] else KStr(key)
  }

  /**
    `getMapped` as declared: its return type is `string` and the file uses
    strict typing, so returning a mapping entry that is a position raises a
    TypeError. `GetMapped` is the intended lookup, which returns the
    position as a key.
   */
  function GetMappedAsWritten(c: Config, key: string): (r: Result<string, Error>)
    ensures r.Err? <==> key in c.mapping && c.mapping[key].KInt?
    ensures r.Err? ==> r.error == EngineError
    ensures r.Ok? ==> KStr(r.value) == GetMapped(c, key)
  {
    if key !in c.mapping then Ok(key)
    else match c.mapping[key]
      case KStr(s) => Ok(s)
      case KInt(_) => Err(EngineError)
  }

  /** The declared and the intended lookup agree exactly when the result is a name. */
  lemma GetMappedAsWrittenOnNames(c: Config, key: string)
    ensures GetMappedAsWritten(c, key).Ok? <==> GetMapped(c, key).KStr?
    ensures GetMapped(c, key).KStr? ==> GetMappedAsWritten(c, key) == Ok(GetMapped(c, key).s)
  {
  }

  /**
    `hasPredefinedValue` and `getPredefinedValue` together: Some(entry)
    exactly when the name is a key of the predefined table.
   */
  function Predefined(c: Config, name: string): (r: Option<Value>)
    ensures r.Some? <==> name in c.predefined
    ensures r.Some? ==> r.value == c.predefined[name]
  {
    if name in c.predefined then Some(c.predefined[name]) else None
  }

  /**
    The predefined value for a (mapped) key. Only strings can be looked up:
    the lookup takes a string parameter.
   */
  function PredefinedFor(c: Config, k: Key): Option<Value> {
    if k.KStr? then Predefined(c, k.s) else None
  }

  /** The fields the fluent setters write. */
  datatype Field =
    | MappingField
    | PredefinedField
    | MethodsFirstField
    | FilterMethodsField
    | FilterPropertiesField
    | MaxParameterCountField
    | NullIsAllowedField
    | NoInputIsAllowedField
    | UsePropertyTransformationField

  datatype FieldValue =
    | MappingValue(m: map<string, Key>)
    | PredefinedValue(p: map<string, Value>)
    | FlagValue(b: bool)
    | NumberValue(n: int)

  /** One setter call, `setMapping($m)`, `setMethodsFirst($b)`, ... */
  datatype Setter =
    | SetMapping(m: map<string, Key>)
    | SetPredefinedValues(p: map<string, Value>)
    | SetMethodsFirst(b: bool)
    | SetFilterMethods(n: int)
    | SetFilterProperties(n: int)
    | SetMaxParameterCount(n: int)
    | SetNullIsAllowed(b: bool)
    | SetNoInputIsAllowed(b: bool)
    | SetUsePropertyTransformation(b: bool)

  /** The getter view of a configuration, one field at a time. */
  function Get(c: Config, f: Field): FieldValue {
    match f
    case MappingField => MappingValue(c.mapping)
    case PredefinedField => PredefinedValue(c.predefined)
    case MethodsFirstField => FlagValue(c.methodsFirst)
    case FilterMethodsField => NumberValue(c.filterMethods)
    case FilterPropertiesField => NumberValue(c.filterProperties)
    case MaxParameterCountField => NumberValue(c.maxParameterCount)
    case NullIsAllowedField => FlagValue(c.nullIsAllowed)
    case NoInputIsAllowedField => FlagValue(c.noInputIsAllowed)
    case UsePropertyTransformationField => FlagValue(c.usePropertyTransformation)
  }

  function Target(s: Setter): Field {
    match s
    case SetMapping(_) => MappingField
    case SetPredefinedValues(_) => PredefinedField
    case SetMethodsFirst(_) => MethodsFirstField
    case SetFilterMethods(_) => FilterMethodsField
    case SetFilterProperties(_) => FilterPropertiesField
    case SetMaxParameterCount(_) => MaxParameterCountField
    case SetNullIsAllowed(_) => NullIsAllowedField
    case SetNoInputIsAllowed(_) => NoInputIsAllowedField
    case SetUsePropertyTransformation(_) => UsePropertyTransformationField
  }

  function Written(s: Setter): FieldValue {
    match s
    case SetMapping(m) => MappingValue(m)
    case SetPredefinedValues(p) => PredefinedValue(p)
    case SetMethodsFirst(b) => FlagValue(b)
    case SetFilterMethods(n) => NumberValue(n)
    case SetFilterProperties(n) => NumberValue(n)
    case SetMaxParameterCount(n) => NumberValue(n)
    case SetNullIsAllowed(b) => FlagValue(b)
    case SetNoInputIsAllowed(b) => FlagValue(b)
    case SetUsePropertyTransformation(b) => FlagValue(b)
  }

  /** A setter call: its own field reads back the written value, every other field is unchanged. */
  function Apply(c: Config, s: Setter): (r: Config)
    ensures Get(r, Target(s)) == Written(s)
    ensures forall f :: f != Target(s) ==> Get(r, f) == Get(c, f)
  {
    match s
    case SetMapping(m) => c.(mapping := m)
    case SetPredefinedValues(p) => c.(predefined := p)
    case SetMethodsFirst(b) => c.(methodsFirst := b)
    case SetFilterMethods(n) => c.(filterMethods := n)
    case SetFilterProperties(n) => c.(filterProperties := n)
    case SetMaxParameterCount(n) => c.(maxParameterCount := n)
    case SetNullIsAllowed(b) => c.(nullIsAllowed := b)
    case SetNoInputIsAllowed(b) => c.(noInputIsAllowed := b)
    case SetUsePropertyTransformation(b) => c.(usePropertyTransformation := b)
  }

  /** A chain of setter calls on a configuration. */
  function ApplyAll(c: Config, ss: seq<Setter>): Config
    decreases |ss|
  {
    if |ss| == 0 then c else ApplyAll(Apply(c, ss[0]), ss[1..])
  }

  /** A field no setter of the chain writes keeps its value. */
  lemma {:induction false} UntouchedFieldKeepsValue(c: Config, ss: seq<Setter>, f: Field)
    requires forall i :: 0 <= i < |ss| ==> Target(ss[i]) != f
    ensures Get(ApplyAll(c, ss), f) == Get(c, f)
    decreases |ss|
  {
    if |ss| > 0 {
      UntouchedFieldKeepsValue(Apply(c, ss[0]), ss[1..], f);
    }
  }
}
