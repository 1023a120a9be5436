/**
 The parsed sources the contract checker compares: TypeScript types as trees
 whose nodes are the union members the splitter finds, Go types, and the
 declaration tables of both sides.
*/
module TsTypes {
  import opened Wrappers

  /** A union of one or more members; `lead` records a leading pipe. */
  datatype TsType = Union(lead: bool, first: Member, rest: seq<Member>) {
    function Members(): (r: seq<Member>)
      ensures r != []
    {
      [first] + rest
    }
  }

  datatype Member =
    | Blank                                    // an empty member, as in `A || B`
    | Word(name: string)                       // a keyword or a declared name
    | Quoted(quote: char, body: string)        // a string or template literal
    | Numeral(text: string)                    // a number literal
    | Suffix(elem: Member)                     // `T[]`
    | Generic(elems: TsType)                   // `Array<T>`
    | Record(value: TsType)                    // `Record<string, T>`
    | Object(fields: seq<ObjectField>)         // an inline object type
    | Inline(text: string)                     // anything else

  datatype ObjectField = ObjectField(name: string, ty: TsField)

  datatype TsField = TsField(optional: bool, ty: TsType)

  const NULL := Word("null")
  const UNDEFINED := Word("undefined")

  type FieldMap = map<string, TsField>

  datatype TsSource = TsSource(interfaces: map<string, FieldMap>, aliases: map<string, TsType>) {
    /** TypeScript lets no declaration reuse a keyword type, and the merge of
        sources rejects a name declared both ways. */
    predicate Valid() {
      && (forall w :: w in RESERVED ==> w !in aliases && w !in interfaces)
      && interfaces.Keys !! aliases.Keys
    }
  }

  const RESERVED := {"null", "undefined", "string", "number", "boolean", "true", "false", "never"}

  function Single(m: Member): TsType { Union(false, m, []) }

  /** A Go type: `Named("time", "Time")` is `time.Time`, and an unqualified name
      has the empty qualifier. */
  datatype GoType =
    | Pointer(target: GoType)
    | Slice(elem: GoType)
    | Map(value: GoType)
    | Named(qualifier: string, short: string)

  datatype GoField = GoField(ty: GoType, omitempty: bool)

  type GoStruct = map<string, GoField>

  datatype GoSource = GoSource(structs: map<string, GoStruct>, stringTypes: set<string>)

  /** The type without its leading stars. */
  function Bare(t: GoType): (r: GoType)
    ensures !r.Pointer?
    ensures r == t || r < t
  {
    if t.Pointer? then Bare(t.target) else t
  }

  datatype Kind = StringKind | NumberKind | BooleanKind

  const NUMBERS := {
    "int", "int8", "int16", "int32", "int64",
    "uint", "uint8", "uint16", "uint32", "uint64", "float32", "float64"
  }

  /** The scalar projection table: looked up by full name, then by the part
      after the last dot. */
  function Projection(t: GoType): Option<Kind> {
    if !t.Named? then None
    else if (t.qualifier, t.short) == ("uuid", "UUID") || (t.qualifier, t.short) == ("time", "Time")
    then Some(StringKind)
    else if t.short == "string" then Some(StringKind)
    else if t.short == "bool" then Some(BooleanKind)
    else if t.short in NUMBERS then Some(NumberKind)
    else None
  }

  /** A slice of `uint8` is written as text, not as a list of numbers. */
  const BYTE := Named("", "uint8")

  predicate HasBytes(t: GoType) {
    match t
    case Pointer(u) => HasBytes(u)
    case Slice(e) => e == BYTE || HasBytes(e)
    case Map(v) => HasBytes(v)
    case Named(_, _) => false
  }

  /** The number types whose values need not be integers. */
  predicate Floating(t: GoType) {
    t.Named? && ("float" <= t.short || (t.qualifier != "" && "float" <= t.qualifier))
  }
}
