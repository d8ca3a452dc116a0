/** Values typed on the command line, coerced by the type the daemon's schema
    gives a setting. */
module Settings {
  import opened Common
  import opened Names

  datatype Json =
    | Null
    | Bool(b: bool)
    | Int(n: int)
    | Float(x: real)
    | Str(s: string)
    | Arr(items: seq<Json>)
    | Obj(members: seq<Member>)

  /** Objects keep the order in which their keys were inserted. */
  datatype Member = Member(key: string, value: Json)

  datatype Kind = Scalar | Enum | InputObject | OtherKind

  datatype TypeRef =
    | NonNull(ofType: TypeRef)
    | ListOf(ofType: TypeRef)
    | Named(kind: Kind, name: string)

  datatype InputField = InputField(name: string, ty: TypeRef)

  datatype TypeDef = TypeDef(inputFields: Option<seq<InputField>>, enumValues: seq<string>)

  type Schema = map<string, TypeDef>

  datatype Error =
    | ExpectsArray
    | ExpectsObject
    | ExpectsName(name: string)
    | ExpectsOneOf(values: seq<string>, raw: string)
    | ExpectsScalar(name: string, raw: string)
    | NoSuchType(name: string)
    | NoInputFields(name: string)
    | UnknownField(key: string, name: string)
    | At(key: string, error: Error)

  datatype Result<+T> = Ok(value: T) | Err(error: Error)

  // ---- enums ------------------------------------------------------------------

  predicate EqIgnoreCase(a: string, b: string) {
    |a| == |b| && forall i :: 0 <= i < |a| ==> Lower(a[i]) == Lower(b[i])
  }

  function FirstMatch(values: seq<string>, raw: string): Option<string> {
    if values == [] then None
    else if EqIgnoreCase(values[0], raw) then Some(values[0])
    else FirstMatch(values[1..], raw)
  }

  function CoerceEnum(schema: Schema, name: string, raw: string): Result<Json> {
    if name !in schema then Err(NoSuchType(name))
    else
      match FirstMatch(schema[name].enumValues, raw)
      case Some(v) => Ok(Str(v))
      case None => Err(ExpectsOneOf(schema[name].enumValues, raw))
  }

  lemma {:induction false} FirstMatchIs(values: seq<string>, raw: string)
    ensures FirstMatch(values, raw).Some? <==> exists v :: v in values && EqIgnoreCase(v, raw)
    ensures FirstMatch(values, raw).Some? ==>
      var v := FirstMatch(values, raw).value;
      v in values && EqIgnoreCase(v, raw) && FirstMatch(values, v) == Some(v)
  {
    if values != [] {
      FirstMatchIs(values[1..], raw);
      if EqIgnoreCase(values[0], raw) {
        assert values[0] in values;
      } else if FirstMatch(values[1..], raw).Some? {
        assert forall w :: EqIgnoreCase(values[0], w) && EqIgnoreCase(w, raw) ==> EqIgnoreCase(values[0], raw);
      }
    }
  }

  ghost predicate IsFirstMatch(values: seq<string>, i: nat, raw: string) {
    i < |values| && EqIgnoreCase(values[i], raw) && forall k :: 0 <= k < i ==> !EqIgnoreCase(values[k], raw)
  }

  lemma {:induction false} FirstMatchIsFirst(values: seq<string>, i: nat, raw: string)
    requires IsFirstMatch(values, i, raw)
    ensures FirstMatch(values, raw) == Some(values[i])
  {
    if i > 0 {
      assert forall k :: 0 <= k < |values| - 1 ==> values[1..][k] == values[k + 1];
      FirstMatchIsFirst(values[1..], i - 1, raw);
    }
  }

  /** The same character, or the two cases of one ASCII letter. */
  ghost predicate SameLetter(a: char, b: char) {
    || a == b
    || exists i: nat :: i < 26 && BothCases(a, b, i)
  }

  ghost predicate BothCases(a: char, b: char, i: nat)
    requires i < 26
  {
    (a == UPPER_CASE[i] && b == LOWER_CASE[i]) || (a == LOWER_CASE[i] && b == UPPER_CASE[i])
  }

  lemma SameLetterIff(a: char, b: char)
    ensures SameLetter(a, b) <==> Lower(a) == Lower(b)
  {
    forall i: nat | i < 26
      ensures BothCases(a, b, i) ==> Lower(a) == Lower(b)
    {
      Alphabet(i);
    }
    if Lower(a) == Lower(b) && a != b {
      var i: nat := Lower(a) as int - 97;
      Alphabet(i);
      assert BothCases(a, b, i);
    }
  }

  ghost predicate Recased(a: string, b: string) {
    |a| == |b| && forall i :: 0 <= i < |a| ==> SameLetter(a[i], b[i])
  }

  lemma RecasedIff(a: string, b: string)
    ensures EqIgnoreCase(a, b) <==> Recased(a, b)
  {
    if |a| == |b| {
      forall i | 0 <= i < |a|
        ensures SameLetter(a[i], b[i]) <==> Lower(a[i]) == Lower(b[i])
      {
        SameLetterIff(a[i], b[i]);
      }
    }
  }

  ghost predicate IsFirstCasing(values: seq<string>, i: nat, raw: string) {
    i < |values| && Recased(values[i], raw) && forall k :: 0 <= k < i ==> !Recased(values[k], raw)
  }

  /** Any casing of a schema name is accepted and becomes the first name of the
      enum that it is a casing of; nothing else is. */
  lemma AnyCasingIsAccepted(schema: Schema, name: string, raw: string)
    requires name in schema
    ensures forall i: nat :: IsFirstCasing(schema[name].enumValues, i, raw) ==>
      CoerceEnum(schema, name, raw) == Ok(Str(schema[name].enumValues[i]))
    ensures (forall i :: 0 <= i < |schema[name].enumValues| ==> !Recased(schema[name].enumValues[i], raw))
      ==> CoerceEnum(schema, name, raw) == Err(ExpectsOneOf(schema[name].enumValues, raw))
  {
    var values := schema[name].enumValues;
    forall i | 0 <= i < |values|
      ensures EqIgnoreCase(values[i], raw) <==> Recased(values[i], raw)
    {
      RecasedIff(values[i], raw);
    }
    forall i: nat | IsFirstMatch(values, i, raw)
      ensures FirstMatch(values, raw) == Some(values[i])
    {
      FirstMatchIsFirst(values, i, raw);
    }
    FirstMatchIs(values, raw);
    forall i: nat | IsFirstCasing(values, i, raw)
      ensures CoerceEnum(schema, name, raw) == Ok(Str(values[i]))
    {
      assert IsFirstMatch(values, i, raw);
    }
  }

  // ---- objects ----------------------------------------------------------------

  function FindField(fields: seq<InputField>, key: string): Option<InputField> {
    if fields == [] then None
    else if fields[0].name == key then Some(fields[0])
    else FindField(fields[1..], key)
  }

  /** The first field of that name, none exactly if no field has it. */
  lemma {:induction false} FindFieldIs(fields: seq<InputField>, key: string)
    ensures FindField(fields, key).None? <==> forall i :: 0 <= i < |fields| ==> fields[i].name != key
    ensures FindField(fields, key).Some? ==> exists i: nat :: IsFirstField(fields, i, FindField(fields, key).value, key)
  {
    if fields != [] {
      FindFieldIs(fields[1..], key);
      assert forall i :: 0 < i < |fields| ==> fields[i] == fields[1..][i - 1];
      if fields[0].name == key {
        assert IsFirstField(fields, 0, fields[0], key);
      } else if FindField(fields, key).Some? {
        var i: nat :| IsFirstField(fields[1..], i, FindField(fields, key).value, key);
        assert IsFirstField(fields, i + 1, FindField(fields, key).value, key);
      }
    }
  }

  ghost predicate IsFirstField(fields: seq<InputField>, i: nat, field: InputField, key: string) {
    && i < |fields| && fields[i] == field && field.name == key
    && forall k :: 0 <= k < i ==> fields[k].name != key
  }

  /** Replaces the value of a key already present, appends a new key. */
  function Insert(out: seq<Member>, key: string, value: Json): seq<Member> {
    if out == [] then [Member(key, value)]
    else if out[0].key == key then [Member(key, value)] + out[1..]
    else [out[0]] + Insert(out[1..], key, value)
  }

  ghost predicate IsFirstMember(out: seq<Member>, i: nat, key: string) {
    i < |out| && out[i].key == key && forall k :: 0 <= k < i ==> out[k].key != key
  }

  /** A key keeps its place; a new one comes last. */
  lemma {:induction false} InsertIs(out: seq<Member>, key: string, value: Json)
    ensures forall i: nat :: IsFirstMember(out, i, key) ==> Insert(out, key, value) == out[i := Member(key, value)]
    ensures (forall i :: 0 <= i < |out| ==> out[i].key != key) ==> Insert(out, key, value) == out + [Member(key, value)]
  {
    if out != [] {
      InsertIs(out[1..], key, value);
      assert forall i :: 0 < i < |out| ==> out[i] == out[1..][i - 1];
      if out[0].key != key {
        forall i: nat | IsFirstMember(out, i, key)
          ensures Insert(out, key, value) == out[i := Member(key, value)]
        {
          assert IsFirstMember(out[1..], i - 1, key);
        }
      }
    }
  }

  function InputFieldsOf(schema: Schema, name: string): Result<seq<InputField>> {
    if name !in schema then Err(NoSuchType(name))
    else match schema[name].inputFields
      case Some(fields) => Ok(fields)
      case None => Err(NoInputFields(name))
  }

  function Strip(t: TypeRef): (r: TypeRef)
    ensures !r.NonNull?
  {
    if t.NonNull? then Strip(t.ofType) else t
  }

  /** A type inside wrappers, outermost first; true is a list. */
  function Wrap(lists: seq<bool>, t: TypeRef): TypeRef {
    if lists == [] then t
    else if lists[0] then ListOf(Wrap(lists[1..], t))
    else NonNull(Wrap(lists[1..], t))
  }

  lemma {:induction false} StripIs(lists: seq<bool>, t: TypeRef)
    requires true !in lists && !t.NonNull?
    ensures Strip(Wrap(lists, t)) == t
  {
    if lists != [] {
      assert lists[0] in lists;
      StripIs(lists[1..], t);
    }
  }

  // ---- coercion ---------------------------------------------------------------

  function Coerce(schema: Schema, t: TypeRef, v: Json): Result<Json>
    decreases v, 0
  {
    if v.Null? then Ok(v)
    else
      match Strip(t)
      case ListOf(inner) =>
        if !v.Arr? then Err(ExpectsArray)
        else (match CoerceItems(schema, inner, v.items)
              case Ok(items) => Ok(Arr(items))
              case Err(e) => Err(e))
      case Named(Enum, name) =>
        if v.Str? then CoerceEnum(schema, name, v.s) else Err(ExpectsName(name))
      case Named(InputObject, name) =>
        if !v.Obj? then Err(ExpectsObject)
        else (match InputFieldsOf(schema, name)
              case Err(e) => Err(e)
              case Ok(fields) =>
                match CoerceMembers(schema, name, fields, v.members, [])
                case Ok(members) => Ok(Obj(members))
                case Err(e) => Err(e))
      case _ => Ok(v)
  }

  function CoerceItems(schema: Schema, t: TypeRef, items: seq<Json>): Result<seq<Json>>
    decreases items, 1
  {
    if items == [] then Ok([])
    else
      match Coerce(schema, t, items[0])
      case Err(e) => Err(e)
      case Ok(item) =>
        match CoerceItems(schema, t, items[1..])
        case Err(e) => Err(e)
        case Ok(rest) => Ok([item] + rest)
  }

  function CoerceMembers(schema: Schema, name: string, fields: seq<InputField>,
                         members: seq<Member>, out: seq<Member>): Result<seq<Member>>
    decreases members, 1
  {
    if members == [] then Ok(out)
    else
      var m := members[0];
      match FindField(fields, Camel(m.key))
      case None => Err(UnknownField(m.key, name))
      case Some(field) =>
        match Coerce(schema, field.ty, m.value)
        case Err(e) => Err(At(m.key, e))
        case Ok(value) =>
          CoerceMembers(schema, name, fields, members[1..], Insert(out, Camel(m.key), value))
  }

  /** The recursion as written: loops over wrappers, items and members. */
  method CoerceJson(schema: Schema, typeRef: TypeRef, value: Json) returns (r: Result<Json>)
    ensures r == Coerce(schema, typeRef, value)
    decreases value
  {
    if value.Null? {
      return Ok(value);
    }
    var t := typeRef;
    while t.NonNull?
      invariant Strip(t) == Strip(typeRef)
      decreases t
    {
      t := t.ofType;
    }
    if t.ListOf? {
      if !value.Arr? {
        return Err(ExpectsArray);
      }
      var items: seq<Json> := [];
      assert value.items[0..] == value.items;
      PrependNothing(CoerceItems(schema, t.ofType, value.items));
      for i := 0 to |value.items|
        invariant CoerceItems(schema, t.ofType, value.items) ==
                  Prepend(items, CoerceItems(schema, t.ofType, value.items[i..]))
      {
        var item := CoerceJson(schema, t.ofType, value.items[i]);
        assert value.items[i..][1..] == value.items[i + 1..];
        if item.Err? {
          return Err(item.error);
        }
        if CoerceItems(schema, t.ofType, value.items[i + 1..]).Ok? {
          Assoc(items, [item.value], CoerceItems(schema, t.ofType, value.items[i + 1..]).value);
        }
        items := items + [item.value];
      }
      assert value.items[|value.items|..] == [] && items + [] == items;
      return Ok(Arr(items));
    }
    if t.kind == Enum {
      if !value.Str? {
        return Err(ExpectsName(t.name));
      }
      return CoerceEnum(schema, t.name, value.s);
    }
    if t.kind == InputObject {
      if !value.Obj? {
        return Err(ExpectsObject);
      }
      var fields := InputFieldsOf(schema, t.name);
      if fields.Err? {
        return Err(fields.error);
      }
      var out: seq<Member> := [];
      for i := 0 to |value.members|
        invariant CoerceMembers(schema, t.name, fields.value, value.members, []) ==
                  CoerceMembers(schema, t.name, fields.value, value.members[i..], out)
      {
        var m := value.members[i];
        assert value.members[i..][1..] == value.members[i + 1..];
        var camel := ToCamel(m.key);
        var field := FindField(fields.value, camel);
        if field.None? {
          return Err(UnknownField(m.key, t.name));
        }
        var member := CoerceJson(schema, field.value.ty, m.value);
        if member.Err? {
          return Err(At(m.key, member.error));
        }
        out := Insert(out, camel, member.value);
      }
      return Ok(Obj(out));
    }
    return Ok(value);
  }

  function Prepend(front: seq<Json>, r: Result<seq<Json>>): Result<seq<Json>> {
    if r.Err? then r else Ok(front + r.value)
  }

  lemma PrependNothing(r: Result<seq<Json>>)
    ensures Prepend([], r) == r
  {
    if r.Ok? {
      assert [] + r.value == r.value;
    }
  }

  // ---- what a coerced value is --------------------------------------------------

  ghost predicate DistinctKeys(members: seq<Member>) {
    forall i, j :: 0 <= i < j < |members| ==> members[i].key != members[j].key
  }

  /** The value is spelled as the schema spells it, at every level. */
  ghost predicate Conforms(schema: Schema, t: TypeRef, v: Json)
    decreases v, 0
  {
    v.Null? ||
    match Strip(t)
    case ListOf(inner) =>
      v.Arr? && forall i :: 0 <= i < |v.items| ==> Conforms(schema, inner, v.items[i])
    case Named(Enum, name) =>
      && v.Str? && name in schema
      && v.s in schema[name].enumValues && FirstMatch(schema[name].enumValues, v.s) == Some(v.s)
    case Named(InputObject, name) =>
      && v.Obj? && InputFieldsOf(schema, name).Ok?
      && DistinctKeys(v.members)
      && (forall i :: 0 <= i < |v.members| ==>
            MemberConforms(schema, InputFieldsOf(schema, name).value, v.members[i]))
    case _ => true
  }

  ghost predicate MemberConforms(schema: Schema, fields: seq<InputField>, m: Member)
    decreases m, 1
  {
    && Camel(m.key) == m.key
    && FindField(fields, m.key).Some?
    && Conforms(schema, FindField(fields, m.key).value.ty, m.value)
  }

  predicate HasKey(members: seq<Member>, key: string) {
    exists i :: 0 <= i < |members| && members[i].key == key
  }

  lemma {:induction false} InsertHolds(out: seq<Member>, key: string, value: Json)
    requires DistinctKeys(out)
    ensures var out' := Insert(out, key, value);
      && DistinctKeys(out')
      && (forall m :: m in out' <==> m == Member(key, value) || (m in out && m.key != key))
      && (forall k :: HasKey(out', k) <==> k == key || HasKey(out, k))
  {
    var out' := Insert(out, key, value);
    if out != [] {
      assert out == [out[0]] + out[1..];
      if out[0].key == key {
        assert out' == [Member(key, value)] + out[1..];
      } else {
        InsertHolds(out[1..], key, value);
        assert out' == [out[0]] + Insert(out[1..], key, value);
        forall i | 0 <= i < |out'[1..]|
          ensures out'[1..][i].key != out[0].key
        {
          assert out'[1..][i] in out'[1..];
        }
      }
    }
    InsertKeys(out, out', key, value);
  }

  lemma InsertKeys(out: seq<Member>, out': seq<Member>, key: string, value: Json)
    requires forall m :: m in out' <==> m == Member(key, value) || (m in out && m.key != key)
    ensures forall k :: HasKey(out', k) <==> k == key || HasKey(out, k)
  {
    forall k
      ensures HasKey(out', k) <==> k == key || HasKey(out, k)
    {
      if k == key {
        assert Member(key, value) in out';
      } else {
        assert HasKey(out, k) <==> exists m :: m in out && m.key == k;
        assert HasKey(out', k) <==> exists m :: m in out' && m.key == k;
      }
    }
  }

  lemma InsertConforms(schema: Schema, fields: seq<InputField>, out: seq<Member>, key: string, value: Json)
    requires DistinctKeys(out)
    requires forall i :: 0 <= i < |out| ==> MemberConforms(schema, fields, out[i])
    requires MemberConforms(schema, fields, Member(key, value))
    ensures var out' := Insert(out, key, value);
      && DistinctKeys(out')
      && (forall i :: 0 <= i < |out'| ==> MemberConforms(schema, fields, out'[i]))
  {
    var out' := Insert(out, key, value);
    InsertHolds(out, key, value);
    forall i | 0 <= i < |out'|
      ensures MemberConforms(schema, fields, out'[i])
    {
      assert out'[i] in out';
    }
  }

  /** Whenever coercion succeeds the result conforms to the type. */
  lemma {:induction false} CoercionIsSound(schema: Schema, t: TypeRef, v: Json)
    requires Coerce(schema, t, v).Ok?
    ensures Conforms(schema, t, Coerce(schema, t, v).value)
    decreases v, 0
  {
    if v.Null? {
    } else {
      match Strip(t)
      case ListOf(inner) => ItemsAreSound(schema, inner, v.items);
      case Named(Enum, name) => FirstMatchIs(schema[name].enumValues, v.s);
      case Named(InputObject, name) =>
        MembersAreSound(schema, name, InputFieldsOf(schema, name).value, v.members, []);
      case _ =>
    }
  }

  lemma {:induction false} ItemsAreSound(schema: Schema, t: TypeRef, items: seq<Json>)
    requires CoerceItems(schema, t, items).Ok?
    ensures var r := CoerceItems(schema, t, items).value;
      forall i :: 0 <= i < |r| ==> Conforms(schema, t, r[i])
    decreases items, 1
  {
    if items != [] {
      CoercionIsSound(schema, t, items[0]);
      ItemsAreSound(schema, t, items[1..]);
    }
  }

  lemma {:induction false} MembersAreSound(schema: Schema, name: string, fields: seq<InputField>,
                                           members: seq<Member>, out: seq<Member>)
    requires CoerceMembers(schema, name, fields, members, out).Ok?
    requires DistinctKeys(out)
    requires forall i :: 0 <= i < |out| ==> MemberConforms(schema, fields, out[i])
    ensures var r := CoerceMembers(schema, name, fields, members, out).value;
      && DistinctKeys(r)
      && (forall i :: 0 <= i < |r| ==> MemberConforms(schema, fields, r[i]))
    decreases members, 1
  {
    if members != [] {
      var m := members[0];
      var field := FindField(fields, Camel(m.key)).value;
      CoercionIsSound(schema, field.ty, m.value);
      CamelIdempotent(m.key);
      var value := Coerce(schema, field.ty, m.value).value;
      InsertConforms(schema, fields, out, Camel(m.key), value);
      MembersAreSound(schema, name, fields, members[1..], Insert(out, Camel(m.key), value));
    }
  }

  lemma {:induction false} InsertAppends(out: seq<Member>, key: string, value: Json)
    requires forall i :: 0 <= i < |out| ==> out[i].key != key
    ensures Insert(out, key, value) == out + [Member(key, value)]
  {
    if out != [] {
      InsertAppends(out[1..], key, value);
      assert out == [out[0]] + out[1..];
    }
  }

  lemma {:induction false} ConformingStays(schema: Schema, t: TypeRef, v: Json)
    requires Conforms(schema, t, v)
    ensures Coerce(schema, t, v) == Ok(v)
    decreases v, 0
  {
    if v.Null? {
    } else {
      match Strip(t)
      case ListOf(inner) => ItemsStay(schema, inner, v.items);
      case Named(InputObject, name) =>
        MembersStay(schema, name, InputFieldsOf(schema, name).value, v.members, []);
        assert [] + v.members == v.members;
      case _ =>
    }
  }

  lemma {:induction false} ItemsStay(schema: Schema, t: TypeRef, items: seq<Json>)
    requires forall i :: 0 <= i < |items| ==> Conforms(schema, t, items[i])
    ensures CoerceItems(schema, t, items) == Ok(items)
    decreases items, 1
  {
    if items != [] {
      ConformingStays(schema, t, items[0]);
      ItemsStay(schema, t, items[1..]);
      assert items == [items[0]] + items[1..];
    }
  }

  lemma {:induction false} MembersStay(schema: Schema, name: string, fields: seq<InputField>,
                                       members: seq<Member>, out: seq<Member>)
    requires forall i :: 0 <= i < |members| ==> MemberConforms(schema, fields, members[i])
    requires DistinctKeys(out + members)
    ensures CoerceMembers(schema, name, fields, members, out) == Ok(out + members)
    decreases members, 1
  {
    if members == [] {
      assert out + members == out;
    } else {
      var m := members[0];
      assert MemberConforms(schema, fields, m);
      ConformingStays(schema, FindField(fields, m.key).value.ty, m.value);
      forall i | 0 <= i < |out|
        ensures out[i].key != m.key
      {
        assert (out + members)[i].key != (out + members)[|out|].key;
      }
      InsertAppends(out, m.key, m.value);
      assert (out + [m]) + members[1..] == out + members;
      MembersStay(schema, name, fields, members[1..], out + [m]);
    }
  }

  /** The values coercion leaves alone are exactly the conforming ones. */
  lemma FixedPoints(schema: Schema, t: TypeRef, v: Json)
    ensures Coerce(schema, t, v) == Ok(v) <==> Conforms(schema, t, v)
  {
    if Coerce(schema, t, v) == Ok(v) {
      CoercionIsSound(schema, t, v);
    }
    if Conforms(schema, t, v) {
      ConformingStays(schema, t, v);
    }
  }

  /** Coercing again changes nothing. */
  lemma CoercionIsIdempotent(schema: Schema, t: TypeRef, v: Json)
    requires Coerce(schema, t, v).Ok?
    ensures Coerce(schema, t, Coerce(schema, t, v).value) == Coerce(schema, t, v)
  {
    CoercionIsSound(schema, t, v);
    ConformingStays(schema, t, Coerce(schema, t, v).value);
  }

  // ---- when coercion succeeds -----------------------------------------------------

  /** What a user may type, up to the case of enum names and the spelling of
      keys. */
  ghost predicate Acceptable(schema: Schema, t: TypeRef, v: Json)
    decreases v
  {
    v.Null? ||
    match Strip(t)
    case ListOf(inner) =>
      v.Arr? && forall i :: 0 <= i < |v.items| ==> Acceptable(schema, inner, v.items[i])
    case Named(Enum, name) =>
      v.Str? && name in schema && exists e :: e in schema[name].enumValues && EqIgnoreCase(e, v.s)
    case Named(InputObject, name) =>
      && v.Obj? && InputFieldsOf(schema, name).Ok?
      && (forall i :: 0 <= i < |v.members| ==>
            var field := FindField(InputFieldsOf(schema, name).value, Camel(v.members[i].key));
            field.Some? && Acceptable(schema, field.value.ty, v.members[i].value))
    case _ => true
  }

  /** Coercion fails on nothing acceptable and accepts nothing else. */
  lemma {:induction false} CoercesExactly(schema: Schema, t: TypeRef, v: Json)
    ensures Coerce(schema, t, v).Ok? <==> Acceptable(schema, t, v)
    decreases v, 0
  {
    if v.Null? {
    } else {
      match Strip(t)
      case ListOf(inner) =>
        if v.Arr? {
          ItemsExactly(schema, inner, v.items);
        }
      case Named(Enum, name) =>
        if v.Str? && name in schema {
          FirstMatchIs(schema[name].enumValues, v.s);
        }
      case Named(InputObject, name) =>
        if v.Obj? && InputFieldsOf(schema, name).Ok? {
          MembersExactly(schema, name, InputFieldsOf(schema, name).value, v.members, []);
        }
      case _ =>
    }
  }

  lemma {:induction false} ItemsExactly(schema: Schema, t: TypeRef, items: seq<Json>)
    ensures CoerceItems(schema, t, items).Ok? <==>
      forall i :: 0 <= i < |items| ==> Acceptable(schema, t, items[i])
    decreases items, 1
  {
    if items != [] {
      CoercesExactly(schema, t, items[0]);
      ItemsExactly(schema, t, items[1..]);
      assert forall i :: 0 < i < |items| ==> items[i] == items[1..][i - 1];
    }
  }

  ghost predicate MemberAcceptable(schema: Schema, fields: seq<InputField>, m: Member) {
    var field := FindField(fields, Camel(m.key));
    field.Some? && Acceptable(schema, field.value.ty, m.value)
  }

  lemma {:induction false} MembersExactly(schema: Schema, name: string, fields: seq<InputField>,
                                          members: seq<Member>, out: seq<Member>)
    ensures CoerceMembers(schema, name, fields, members, out).Ok? <==>
      forall i :: 0 <= i < |members| ==> MemberAcceptable(schema, fields, members[i])
    decreases members, 1
  {
    if members != [] {
      var m := members[0];
      var field := FindField(fields, Camel(m.key));
      if field.Some? {
        CoercesExactly(schema, field.value.ty, m.value);
        var value := Coerce(schema, field.value.ty, m.value);
        if value.Ok? {
          MembersExactly(schema, name, fields, members[1..], Insert(out, Camel(m.key), value.value));
        }
      }
      assert forall i :: 0 < i < |members| ==> members[i] == members[1..][i - 1];
    }
  }

  predicate HasField(fields: seq<InputField>, key: string) {
    exists i :: 0 <= i < |fields| && fields[i].name == key
  }

  /** The key is a field's name, and the value fits the first field so named. */
  ghost predicate FitsField(schema: Schema, fields: seq<InputField>, m: Member) {
    exists i: nat :: i < |fields| && IsFirstField(fields, i, fields[i], m.key) && Conforms(schema, fields[i].ty, m.value)
  }

  /** A coerced object has schema field names for keys and nothing else, each
      value conforming to the type of the first field of that name; an object
      with a member that spells no field's name is refused. */
  lemma ObjectKeysAreFields(schema: Schema, t: TypeRef, v: Json, name: string, fields: seq<InputField>)
    requires Strip(t) == Named(InputObject, name) && v.Obj?
    requires name in schema && schema[name].inputFields == Some(fields)
    ensures Coerce(schema, t, v).Ok? ==>
      var r := Coerce(schema, t, v).value;
      r.Obj? && forall j :: 0 <= j < |r.members| ==> FitsField(schema, fields, r.members[j])
    ensures (exists j :: 0 <= j < |v.members| && !HasField(fields, Camel(v.members[j].key))) ==>
      Coerce(schema, t, v).Err?
  {
    if Coerce(schema, t, v).Ok? {
      CoercionIsSound(schema, t, v);
      var r := Coerce(schema, t, v).value;
      forall j | 0 <= j < |r.members|
        ensures FitsField(schema, fields, r.members[j])
      {
        assert MemberConforms(schema, fields, r.members[j]);
        FindFieldIs(fields, r.members[j].key);
      }
      CoercesExactly(schema, t, v);
      forall j | 0 <= j < |v.members|
        ensures HasField(fields, Camel(v.members[j].key))
      {
        FindFieldIs(fields, Camel(v.members[j].key));
      }
    }
  }

  /** What each refusal says. */
  lemma RefusalsAreOwn(schema: Schema, t: TypeRef, v: Json)
    requires !v.Null?
    ensures Strip(t).ListOf? && !v.Arr? ==> Coerce(schema, t, v) == Err(ExpectsArray)
    ensures Strip(t).Named? && Strip(t).kind == Enum && !v.Str? ==> Coerce(schema, t, v) == Err(ExpectsName(Strip(t).name))
    ensures Strip(t).Named? && Strip(t).kind == InputObject ==>
      var name := Strip(t).name;
      && (!v.Obj? ==> Coerce(schema, t, v) == Err(ExpectsObject))
      && (v.Obj? && name !in schema ==> Coerce(schema, t, v) == Err(NoSuchType(name)))
      && (v.Obj? && name in schema && schema[name].inputFields.None? ==> Coerce(schema, t, v) == Err(NoInputFields(name)))
  {
  }

  /** The first item that cannot be coerced is the one reported. */
  lemma {:induction false} FirstBadItem(schema: Schema, t: TypeRef, items: seq<Json>, i: nat)
    requires i < |items| && !Acceptable(schema, t, items[i])
    requires forall k :: 0 <= k < i ==> Acceptable(schema, t, items[k])
    ensures Coerce(schema, t, items[i]).Err?
    ensures CoerceItems(schema, t, items) == Err(Coerce(schema, t, items[i]).error)
  {
    CoercesExactly(schema, t, items[i]);
    if i > 0 {
      CoercesExactly(schema, t, items[0]);
      assert forall k :: 0 <= k < |items| - 1 ==> items[1..][k] == items[k + 1];
      FirstBadItem(schema, t, items[1..], i - 1);
    }
  }

  /** The first member that cannot be coerced is the one reported: by its own
      spelling if it names no field, else with what is wrong with its value. */
  lemma {:induction false} FirstBadMember(schema: Schema, name: string, fields: seq<InputField>,
                                          members: seq<Member>, out: seq<Member>, i: nat)
    requires i < |members| && !MemberAcceptable(schema, fields, members[i])
    requires forall k :: 0 <= k < i ==> MemberAcceptable(schema, fields, members[k])
    ensures var m := members[i];
      var field := FindField(fields, Camel(m.key));
      if !HasField(fields, Camel(m.key)) then
        CoerceMembers(schema, name, fields, members, out) == Err(UnknownField(m.key, name))
      else
        && field.Some? && Coerce(schema, field.value.ty, m.value).Err?
        && CoerceMembers(schema, name, fields, members, out)
           == Err(At(m.key, Coerce(schema, field.value.ty, m.value).error))
    decreases |members|
  {
    var m := members[0];
    FindFieldIs(fields, Camel(m.key));
    if FindField(fields, Camel(m.key)).Some? {
      var field := FindField(fields, Camel(m.key)).value;
      CoercesExactly(schema, field.ty, m.value);
      if i > 0 {
        assert MemberAcceptable(schema, fields, members[0]);
        assert forall k :: 0 <= k < |members| - 1 ==> members[1..][k] == members[k + 1];
        FirstBadMember(schema, name, fields, members[1..], Insert(out, Camel(m.key), Coerce(schema, field.ty, m.value).value), i - 1);
      }
    } else {
      assert !MemberAcceptable(schema, fields, members[0]);
    }
  }

  // ---- what coercion keeps ----------------------------------------------------------

  /** The last member that spells the key, in whatever way. */
  predicate LastFor(members: seq<Member>, i: nat, key: string) {
    && i < |members| && Camel(members[i].key) == key
    && forall k :: i < k < |members| ==> Camel(members[k].key) != key
  }

  /** The result says what the input said: same lists, same enum names up to
      case, and for each field the value of the last member that named it. */
  ghost predicate SameMeaning(schema: Schema, t: TypeRef, v: Json, r: Json)
    decreases v
  {
    if v.Null? then r.Null?
    else
      match Strip(t)
      case ListOf(inner) =>
        && v.Arr? && r.Arr? && |r.items| == |v.items|
        && forall i :: 0 <= i < |v.items| ==> SameMeaning(schema, inner, v.items[i], r.items[i])
      case Named(Enum, name) => v.Str? && r.Str? && EqIgnoreCase(r.s, v.s)
      case Named(InputObject, name) =>
        && v.Obj? && r.Obj? && InputFieldsOf(schema, name).Ok?
        && (forall i :: 0 <= i < |v.members| ==> HasKey(r.members, Camel(v.members[i].key)))
        && (forall j :: 0 <= j < |r.members| ==>
              exists i: nat :: LastFor(v.members, i, r.members[j].key)
                && FindField(InputFieldsOf(schema, name).value, r.members[j].key).Some?
                && SameMeaning(schema, FindField(InputFieldsOf(schema, name).value, r.members[j].key).value.ty,
                               v.members[i].value, r.members[j].value))
      case _ => r == v
  }

  ghost predicate Spelled(schema: Schema, fields: seq<InputField>, members: seq<Member>, i: nat, m: Member) {
    && LastFor(members, i, m.key)
    && FindField(fields, m.key).Some?
    && SameMeaning(schema, FindField(fields, m.key).value.ty, members[i].value, m.value)
  }

  lemma {:induction false} CoercionKeepsMeaning(schema: Schema, t: TypeRef, v: Json)
    requires Coerce(schema, t, v).Ok?
    ensures SameMeaning(schema, t, v, Coerce(schema, t, v).value)
    decreases v, 0
  {
    if v.Null? {
    } else {
      match Strip(t)
      case ListOf(inner) => ItemsKeepMeaning(schema, inner, v.items);
      case Named(Enum, name) => FirstMatchIs(schema[name].enumValues, v.s);
      case Named(InputObject, name) =>
        var fields := InputFieldsOf(schema, name).value;
        MembersKeepMeaning(schema, name, fields, v.members, []);
        var r := Coerce(schema, t, v).value;
        forall j | 0 <= j < |r.members|
          ensures exists i: nat :: (LastFor(v.members, i, r.members[j].key)
            && FindField(fields, r.members[j].key).Some?
            && SameMeaning(schema, FindField(fields, r.members[j].key).value.ty,
                           v.members[i].value, r.members[j].value))
        {
          assert From(schema, fields, v.members, [], r.members[j]);
          var i: nat :| Spelled(schema, fields, v.members, i, r.members[j]);
          assert LastFor(v.members, i, r.members[j].key);
        }
      case _ =>
    }
  }

  lemma {:induction false} ItemsKeepMeaning(schema: Schema, t: TypeRef, items: seq<Json>)
    requires CoerceItems(schema, t, items).Ok?
    ensures var r := CoerceItems(schema, t, items).value;
      |r| == |items| && forall i :: 0 <= i < |items| ==> SameMeaning(schema, t, items[i], r[i])
    decreases items, 1
  {
    if items != [] {
      CoercionKeepsMeaning(schema, t, items[0]);
      ItemsKeepMeaning(schema, t, items[1..]);
    }
  }

  /** A member of the result comes from the last input that spells its key, or
      was there before and is not spelled by any. */
  ghost predicate From(schema: Schema, fields: seq<InputField>, members: seq<Member>, out: seq<Member>, m: Member) {
    || (exists i: nat :: Spelled(schema, fields, members, i, m))
    || (m in out && forall k :: 0 <= k < |members| ==> Camel(members[k].key) != m.key)
  }

  lemma {:induction false} MembersKeepMeaning(schema: Schema, name: string, fields: seq<InputField>,
                                              members: seq<Member>, out: seq<Member>)
    requires CoerceMembers(schema, name, fields, members, out).Ok? && DistinctKeys(out)
    ensures var r := CoerceMembers(schema, name, fields, members, out).value;
      && (forall j :: 0 <= j < |r| ==> From(schema, fields, members, out, r[j]))
      && (forall i :: 0 <= i < |members| ==> HasKey(r, Camel(members[i].key)))
      && (forall k :: HasKey(out, k) ==> HasKey(r, k))
    decreases members, 1
  {
    if members == [] {
    } else {
      var m := members[0];
      var camel := Camel(m.key);
      var field := FindField(fields, camel).value;
      var value := Coerce(schema, field.ty, m.value).value;
      var out' := Insert(out, camel, value);
      CoercionKeepsMeaning(schema, field.ty, m.value);
      InsertHolds(out, camel, value);
      MembersKeepMeaning(schema, name, fields, members[1..], out');
      var r := CoerceMembers(schema, name, fields, members, out).value;
      forall i | 0 <= i < |members|
        ensures HasKey(r, Camel(members[i].key))
      {
        if i > 0 {
          assert members[i] == members[1..][i - 1];
        } else {
          assert HasKey(out', camel);
        }
      }
      forall j | 0 <= j < |r|
        ensures From(schema, fields, members, out, r[j])
      {
        assert From(schema, fields, members[1..], out', r[j]);
        FromTail(schema, fields, members, out, out', value, r[j]);
      }
    }
  }

  lemma FromTail(schema: Schema, fields: seq<InputField>, members: seq<Member>,
                 out: seq<Member>, out': seq<Member>, value: Json, m: Member)
    requires members != [] && From(schema, fields, members[1..], out', m)
    requires var key := Camel(members[0].key);
      && (forall x :: x in out' <==> x == Member(key, value) || (x in out && x.key != key))
      && FindField(fields, key).Some?
      && SameMeaning(schema, FindField(fields, key).value.ty, members[0].value, value)
    ensures From(schema, fields, members, out, m)
  {
    assert forall k :: 0 < k < |members| ==> members[k] == members[1..][k - 1];
    if i: nat :| Spelled(schema, fields, members[1..], i, m) {
      forall k | i + 1 < k < |members|
        ensures Camel(members[k].key) != m.key
      {
        assert members[k] == members[1..][k - 1];
      }
      assert Spelled(schema, fields, members, i + 1, m);
    } else if m.key == Camel(members[0].key) {
      forall k | 0 < k < |members|
        ensures Camel(members[k].key) != m.key
      {
        assert members[k] == members[1..][k - 1];
      }
      assert Spelled(schema, fields, members, 0, m);
    }
  }

  // ---- a value as typed on the command line ------------------------------------------

  /** What the standard parsers make of the raw text. */
  datatype Parsed = Parsed(json: Option<Json>, integer: Option<int>, number: Option<real>, boolean: Option<bool>)

  datatype Unwrapped = Unwrapped(named: TypeRef, isList: bool)

  function Unwrap(t: TypeRef): Unwrapped {
    match t
    case NonNull(inner) => Unwrap(inner)
    case ListOf(inner) => Unwrapped(Unwrap(inner).named, true)
    case Named(_, _) => Unwrapped(t, false)
  }

  method UnwrapType(typeRef: TypeRef) returns (r: Unwrapped)
    ensures r == Unwrap(typeRef)
  {
    var t, isList := typeRef, false;
    while !t.Named?
      invariant Unwrap(typeRef) == Unwrapped(Unwrap(t).named, isList || Unwrap(t).isList)
      decreases t
    {
      isList := isList || t.ListOf?;
      t := t.ofType;
    }
    return Unwrapped(t, isList);
  }

  /** The wrappers come off; one list among them makes it a list. */
  lemma {:induction false} UnwrapIs(lists: seq<bool>, named: TypeRef)
    requires named.Named?
    ensures Unwrap(Wrap(lists, named)) == Unwrapped(named, true in lists)
  {
    if lists != [] {
      UnwrapIs(lists[1..], named);
      assert lists == [lists[0]] + lists[1..];
    }
  }

  function Lift<T>(o: Option<T>, f: T -> Json, name: string, raw: string): Result<Json> {
    match o
    case Some(x) => Ok(f(x))
    case None => Err(ExpectsScalar(name, raw))
  }

  predicate TakesJson(u: Unwrapped) {
    u.isList || (u.named.Named? && u.named.kind == InputObject)
  }

  /** Which raw values are accepted, kind by kind. */
  ghost predicate RawAcceptable(schema: Schema, t: TypeRef, raw: string, parsed: Parsed) {
    raw == "null" ||
    if Unwrap(t).isList then parsed.json.Some? && parsed.json.value.Arr? && Acceptable(schema, t, parsed.json.value)
    else
      match Unwrap(t).named
      case Named(Scalar, name) =>
        && (name == "Int" ==> parsed.integer.Some?)
        && (name == "Float" ==> parsed.number.Some?)
        && (name == "Boolean" ==> parsed.boolean.Some?)
      case Named(Enum, name) =>
        name in schema && exists e :: e in schema[name].enumValues && EqIgnoreCase(e, raw)
      case Named(InputObject, _) =>
        parsed.json.Some? && parsed.json.value.Obj? && Acceptable(schema, t, parsed.json.value)
      case _ => true
  }

  /** What an accepted raw value becomes. */
  ghost predicate RawMeans(schema: Schema, t: TypeRef, raw: string, parsed: Parsed, v: Json)
    requires RawAcceptable(schema, t, raw, parsed)
  {
    if raw == "null" then v == Null
    else if Unwrap(t).isList then SameMeaning(schema, t, parsed.json.value, v)
    else
      match Unwrap(t).named
      case Named(Scalar, name) =>
        v == (if name == "Int" then Int(parsed.integer.value)
              else if name == "Float" then Float(parsed.number.value)
              else if name == "Boolean" then Bool(parsed.boolean.value)
              else Str(raw))
      case Named(Enum, _) => v.Str? && EqIgnoreCase(v.s, raw)
      case Named(InputObject, _) => SameMeaning(schema, t, parsed.json.value, v)
      case _ => v == Str(raw)
  }

  /** Why a raw value is refused. */
  ghost predicate RawRefused(schema: Schema, t: TypeRef, raw: string, parsed: Parsed, e: Error) {
    var json := parsed.json;
    if Unwrap(t).isList then
      if json.None? || !json.value.Arr? then e == ExpectsArray else Coerce(schema, t, json.value) == Err(e)
    else
      match Unwrap(t).named
      case Named(Scalar, name) => e == ExpectsScalar(name, raw)
      case Named(Enum, name) =>
        e == if name in schema then ExpectsOneOf(schema[name].enumValues, raw) else NoSuchType(name)
      case Named(InputObject, _) =>
        if json.None? || !json.value.Obj? then e == ExpectsObject else Coerce(schema, t, json.value) == Err(e)
      case _ => false
  }

  method CoerceRaw(schema: Schema, typeRef: TypeRef, raw: string, parsed: Parsed) returns (r: Result<Json>)
    ensures r.Ok? <==> RawAcceptable(schema, typeRef, raw, parsed)
    ensures r.Ok? ==> RawMeans(schema, typeRef, raw, parsed, r.value)
    ensures r.Ok? ==> Conforms(schema, typeRef, r.value)
    ensures r.Ok? ==> Coerce(schema, typeRef, r.value) == r
    ensures r.Err? ==> RawRefused(schema, typeRef, raw, parsed, r.error)
    ensures r.Ok? && raw != "null" && TakesJson(Unwrap(typeRef)) ==>
      r == Coerce(schema, typeRef, parsed.json.value)
  {
    if raw == "null" {
      return Ok(Null);
    }
    var u := UnwrapType(typeRef);
    StripIsNamed(typeRef);
    if u.isList {
      if parsed.json.None? || !parsed.json.value.Arr? {
        return Err(ExpectsArray);
      }
      CoercesExactly(schema, typeRef, parsed.json.value);
      r := CoerceJson(schema, typeRef, parsed.json.value);
    } else {
      var name := u.named.name;
      match u.named.kind {
        case Scalar =>
          if name == "Int" {
            r := Lift(parsed.integer, n => Int(n), name, raw);
          } else if name == "Float" {
            r := Lift(parsed.number, x => Float(x), name, raw);
          } else if name == "Boolean" {
            r := Lift(parsed.boolean, b => Bool(b), name, raw);
          } else {
            r := Ok(Str(raw));
          }
        case Enum =>
          if name in schema {
            FirstMatchIs(schema[name].enumValues, raw);
          }
          r := CoerceEnum(schema, name, raw);
        case InputObject =>
          if parsed.json.None? || !parsed.json.value.Obj? {
            return Err(ExpectsObject);
          }
          CoercesExactly(schema, typeRef, parsed.json.value);
          r := CoerceJson(schema, typeRef, parsed.json.value);
        case OtherKind =>
          r := Ok(Str(raw));
      }
    }
    if r.Ok? {
      if u.isList || u.named.kind == InputObject {
        CoercionIsSound(schema, typeRef, parsed.json.value);
        CoercionKeepsMeaning(schema, typeRef, parsed.json.value);
      }
      FixedPoints(schema, typeRef, r.value);
    }
  }

  lemma {:induction false} StripIsNamed(t: TypeRef)
    ensures Unwrap(t).isList <==> Strip(t).ListOf?
    ensures !Unwrap(t).isList ==> Unwrap(t).named == Strip(t)
    ensures Unwrap(t).named.Named?
  {
    match t
    case NonNull(inner) => StripIsNamed(inner);
    case ListOf(inner) => StripIsNamed(inner);
    case Named(_, _) =>
  }
}
