/**
 What the two sides of the wire contract mean, independently of the checker:
 the JSON values Go's encoder can produce for a type, and the JSON values a
 TypeScript type admits.
*/
module WireMeaning {
  import opened Wrappers
  import opened TsTypes
  import opened WireChecker

  datatype Json =
    | Null
    | Boolean(b: bool)
    | Number(n: real)
    | Text(s: string)
    | List(items: seq<Json>)
    | Dict(fields: map<string, Json>)

  // Go

  predicate Base64Char(c: char) {
    'A' <= c <= 'Z' || 'a' <= c <= 'z' || '0' <= c <= '9' || c == '+' || c == '/'
  }

  /** Standard base64: groups of four, the last padded with at most two signs. */
  predicate Base64(s: string) {
    && |s| % 4 == 0
    && forall i :: 0 <= i < |s| ==>
         Base64Char(s[i]) || (i >= |s| - 2 && s[i] == '=' && s[|s| - 1] == '=')
  }

  datatype Written = AsText | AsNumber | AsInteger | AsBoolean

  /** How Go writes its scalars.  Predeclared names are never qualified in Go. */
  function GoScalar(t: GoType): Option<Written> {
    match t
    case Named("uuid", "UUID") => Some(AsText)
    case Named("time", "Time") => Some(AsText)
    case Named(_, name) =>
      if name == "string" then Some(AsText)
      else if name == "bool" then Some(AsBoolean)
      else if name in {"float32", "float64"} then Some(AsNumber)
      else if name in {"int", "int8", "int16", "int32", "int64", "uint", "uint8", "uint16", "uint32", "uint64"} then
        Some(AsInteger)
      else None
    case _ => None
  }

  /** The JSON `encoding/json` can write for a value of type `t`.  A nil pointer,
      slice or map is written as null, and a byte slice as base64 text; a name that
      is no scalar, string type or struct is opaque. */
  ghost predicate Emits(go: GoSource, t: GoType, j: Json)
    decreases j, 1, t
  {
    match t
    case Pointer(u) => j == Null || Emits(go, u, j)
    case Slice(e) =>
      || j == Null
      || if e == BYTE then j.Text? && Base64(j.s)
         else j.List? && forall i :: 0 <= i < |j.items| ==> Emits(go, e, j.items[i])
    case Map(v) => j == Null || (j.Dict? && forall k :: k in j.fields ==> Emits(go, v, j.fields[k]))
    case Named(_, short) =>
      match GoScalar(t)
      case Some(AsText) => j.Text?
      case Some(AsNumber) => j.Number?
      case Some(AsInteger) => j.Number? && Integral(j.n)
      case Some(AsBoolean) => j.Boolean?
      case None =>
        if short in go.stringTypes then j.Text?
        else if short in go.structs then EmitsStruct(go, go.structs[short], j)
        else true
  }

  predicate Integral(n: real) { n.Floor as real == n }

  /** `omitempty` leaves out a nil pointer, an empty slice or map and a zero
      scalar, so what is written is the pointee, a struct, or nothing empty. */
  ghost predicate EmitsField(go: GoSource, g: GoField, j: Json)
    decreases j, 2
  {
    if !g.omitempty then Emits(go, g.ty, j)
    else if g.ty.Pointer? then Emits(go, g.ty.target, j)
    else Emits(go, g.ty, j) && (StructName(go, g.ty) || Solid(j))
  }

  predicate StructName(go: GoSource, t: GoType) {
    t.Named? && GoScalar(t) == None && t.short !in go.stringTypes
  }

  /** No value that `omitempty` calls empty. */
  predicate Solid(j: Json) {
    match j
    case Null => false
    case Boolean(b) => b
    case Number(n) => n != 0.0
    case Text(s) => s != ""
    case List(items) => items != []
    case Dict(fields) => fields.Keys != {}
  }

  ghost predicate EmitsStruct(go: GoSource, s: GoStruct, j: Json)
    decreases j, 0
  {
    && j.Dict?
    && j.fields.Keys <= s.Keys
    && forall k :: k in s ==>
         if k in j.fields then EmitsField(go, s[k], j.fields[k]) else s[k].omitempty
  }

  // TypeScript

  /** The merged fields of an alias defined as a union of object types only. */
  function UnionFields(ts: TsSource, name: string): Option<FieldMap> {
    if name !in ts.aliases then None
    else
      match Branches(ts.aliases[name].Members())
      case None => None
      case Some(bs) => Merge(bs)
  }

  /** How a type is read.  A string or boolean literal stands for its whole kind,
      as in the projection check, or for itself, as in the schema check.  A named
      object-only union is read as its merged fields, the projection the checker
      documents, or branch by branch, which is what TypeScript means. */
  datatype Reading = Widened | Exact | Branchwise(literal: bool) {
    predicate Literal() { Exact? || (Branchwise? && literal) }

    predicate Merged() { !Branchwise? }
  }

  /** The merged fields, where the reading uses them. */
  function ReadFields(rd: Reading, ts: TsSource, name: string): Option<FieldMap> {
    if rd.Merged() then UnionFields(ts, name) else None
  }

  /** JSON values of a type.  Number literals stand for every number, and an
      interface admits closed objects. */
  ghost predicate Accepts(rd: Reading, ts: TsSource, t: TsType, j: Json)
    decreases j, 2, 0, 0
  {
    exists n: nat :: AcceptsWithin(rd, ts, t.Members(), j, n)
  }

  /** Some member admits `j` after opening at most `n` nested aliases. */
  ghost predicate AcceptsWithin(rd: Reading, ts: TsSource, ms: seq<Member>, j: Json, n: nat)
    decreases j, 1, n, 1
  {
    exists i :: 0 <= i < |ms| && MemberAccepts(rd, ts, ms[i], j, n)
  }

  ghost predicate MemberAccepts(rd: Reading, ts: TsSource, m: Member, j: Json, n: nat)
    decreases j, 1, n, 0
  {
    match m
    case Blank => false
    case Quoted(_, body) => j.Text? && (rd.Literal() ==> j.s == body)
    case Numeral(_) => j.Number?
    case Suffix(e) => j.List? && forall i :: 0 <= i < |j.items| ==> Accepts(rd, ts, Single(e), j.items[i])
    case Generic(e) => j.List? && forall i :: 0 <= i < |j.items| ==> Accepts(rd, ts, e, j.items[i])
    case Record(v) => j.Dict? && forall k :: k in j.fields ==> Accepts(rd, ts, v, j.fields[k])
    case Object(fs) => BranchFields(fs).Some? && FieldsAccept(rd, ts, BranchFields(fs).value, j)
    case Inline(_) => false
    case Word(w) =>
      if w in RESERVED then KeywordAccepts(rd, w, j)
      else if w in ts.interfaces then FieldsAccept(rd, ts, ts.interfaces[w], j)
      else if w !in ts.aliases then false
      else
        match ReadFields(rd, ts, w)
        case Some(f) => FieldsAccept(rd, ts, f, j)
        case None => n > 0 && AcceptsWithin(rd, ts, ts.aliases[w].Members(), j, n - 1)
  }

  predicate KeywordAccepts(rd: Reading, w: string, j: Json) {
    || (w == "null" && j == Null)
    || (w == "string" && j.Text?)
    || (w == "number" && j.Number?)
    || (w == "boolean" && j.Boolean?)
    || (w == "true" && j.Boolean? && (rd.Literal() ==> j.b))
    || (w == "false" && j.Boolean? && (rd.Literal() ==> !j.b))
  }

  ghost predicate FieldsAccept(rd: Reading, ts: TsSource, f: FieldMap, j: Json)
    decreases j, 0, 0, 0
  {
    && j.Dict?
    && j.fields.Keys <= f.Keys
    && forall k :: k in f ==> if k in j.fields then Accepts(rd, ts, f[k].ty, j.fields[k]) else f[k].optional
  }
}
