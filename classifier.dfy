/** The property classifier: ClassNameToNgAdminConfigurationTransformer.
    It turns the serializer's ordered property metadata for one class into a
    baseline ng-admin entity configuration. */
module PropertyClassifier {
  import opened Wrappers
  import opened NgAdmin

  /** A serializer type: `type['name']` and its type parameters `type['params']`. */
  datatype JmsType = JmsType(name: string, params: seq<JmsType>)

  /** Serializer property metadata: the reflected property name, the optional
      serialized-name annotation the naming strategy may consult, and the type. */
  datatype PropertyMetadata = PropertyMetadata(
    name: string,
    serializedName: Option<string>,
    typ: JmsType)

  /** The serializer naming strategy's `translateName`, foreign code. */
  type NamingStrategy = PropertyMetadata -> string

  const NAMESPACE_SEPARATOR: char := '\\'
  const ARRAY_COLLECTION := "ArrayCollection"
  const ID_COLLECTION := "Lemon\\RestBundle\\Serializer\\IdCollection"
  /** Reflected property names whose `string` type is shown as a text block. */
  const LONG_FORM_NAMES: seq<string> := ["body", "content", "details"]

  /** What `getExtraDataBasedOnType` contributes to a field besides its name. */
  datatype TypeData = TypeData(
    kind: string,
    referencedEntity: Option<EntityRef>,
    referencedField: Option<string>)

  // ---------------------------------------------------------------------
  // explode / implode and the entity name

  /** PHP `explode(sep, s)`: the maximal sep-free pieces of `s`, in order. */
  function Explode(s: string, sep: char): (parts: seq<string>)
    ensures |parts| >= 1
    ensures forall i :: 0 <= i < |parts| ==> sep !in parts[i]
    decreases |s|
  {
    if |s| == 0 then [""]
    else
      var rest := Explode(s[1..], sep);
      if s[0] == sep then [""] + rest
      else [[s[0]] + rest[0]] + rest[1..]
  }

  /** PHP `implode(sep, parts)`. */
  function Implode(parts: seq<string>, sep: char): string
    decreases |parts|
  {
    if |parts| == 0 then ""
    else if |parts| == 1 then parts[0]
    else parts[0] + [sep] + Implode(parts[1..], sep)
  }

  /** Exploding loses nothing: the pieces glue back to the input. */
  lemma {:induction false} ImplodeExplode(s: string, sep: char)
    ensures Implode(Explode(s, sep), sep) == s
    decreases |s|
  {
    if |s| > 0 {
      var rest := Explode(s[1..], sep);
      ImplodeExplode(s[1..], sep);
      if s[0] == sep {
        assert Explode(s, sep) == [""] + rest;
        assert s == [sep] + s[1..];
      } else {
        var parts := Explode(s, sep);
        assert parts == [[s[0]] + rest[0]] + rest[1..];
        if |rest| == 1 {
          assert s == [s[0]] + s[1..];
        } else {
          assert parts[1..] == rest[1..];
          assert Implode(rest, sep) == rest[0] + [sep] + Implode(rest[1..], sep);
          assert s == [s[0]] + s[1..];
        }
      }
    }
  }

  /** Exploding is the inverse of imploding separator-free pieces. */
  lemma {:induction false} ExplodeImplode(parts: seq<string>, sep: char)
    requires |parts| >= 1
    requires forall i :: 0 <= i < |parts| ==> sep !in parts[i]
    ensures Explode(Implode(parts, sep), sep) == parts
    decreases |parts|
  {
    if |parts| == 1 {
      ExplodeWithoutSeparator(parts[0], sep);
    } else {
      ExplodeImplode(parts[1..], sep);
      ExplodeConcat(parts[0], Implode(parts[1..], sep), sep);
      ExplodeWithoutSeparator(parts[0], sep);
      assert parts == [parts[0]] + parts[1..];
    }
  }

  /** A separator-free string explodes to itself alone. */
  lemma {:induction false} ExplodeWithoutSeparator(s: string, sep: char)
    requires sep !in s
    ensures Explode(s, sep) == [s]
    decreases |s|
  {
    if |s| > 0 {
      ExplodeWithoutSeparator(s[1..], sep);
      assert s == [s[0]] + s[1..];
    }
  }

  /** Exploding `a + sep + b` gives the pieces of `a` followed by those of `b`. */
  lemma {:induction false} ExplodeConcat(a: string, b: string, sep: char)
    ensures Explode(a + [sep] + b, sep) == Explode(a, sep) + Explode(b, sep)
    decreases |a|
  {
    var s := a + [sep] + b;
    if |a| == 0 {
      assert s[1..] == b;
    } else {
      assert s[1..] == a[1..] + [sep] + b;
      ExplodeConcat(a[1..], b, sep);
    }
  }

  /** The last piece of `explode` is the part of `s` after its last separator:
      a separator-free suffix that is either all of `s` or preceded by one. */
  lemma {:induction false} ExplodeLast(s: string, sep: char)
    ensures var parts := Explode(s, sep);
            var last := parts[|parts| - 1];
            |last| <= |s| && last == s[|s| - |last|..] &&
            (|last| < |s| ==> s[|s| - |last| - 1] == sep) &&
            (|parts| > 1 ==> |last| < |s|)
    decreases |s|
  {
    if |s| > 0 {
      var tail := s[1..];
      var rest := Explode(tail, sep);
      var parts := Explode(s, sep);
      ExplodeLast(tail, sep);
      if s[0] != sep && |rest| == 1 {
        SinglePiece(tail, sep);
        assert parts == [[s[0]] + tail];
        assert s == [s[0]] + tail;
      } else {
        var last := rest[|rest| - 1];
        if s[0] == sep {
          assert parts == [""] + rest;
        } else {
          assert parts == [[s[0]] + rest[0]] + rest[1..];
        }
        assert parts[|parts| - 1] == last;
        SuffixOfTail(s, last, sep);
      }
    }
  }

  /** A string that explodes to one piece is that piece. */
  lemma SinglePiece(s: string, sep: char)
    requires |Explode(s, sep)| == 1
    ensures Explode(s, sep) == [s]
  {
    ImplodeExplode(s, sep);
  }

  /** A suffix of `s[1..]` preceded by a separator there is one of `s` too. */
  lemma SuffixOfTail(s: string, t: string, sep: char)
    requires |s| > 0 && |t| <= |s| - 1 && t == s[1..][|s| - 1 - |t|..]
    requires |t| < |s| - 1 ==> s[1..][|s| - 1 - |t| - 1] == sep
    ensures t == s[|s| - |t|..]
    ensures |t| < |s| - 1 ==> s[|s| - |t| - 1] == sep
  {
  }

  /** `end(explode('\\', className))`: the text after the last namespace
      separator, or the whole name when it has none. */
  function LastSegment(className: string): (segment: string)
    ensures NAMESPACE_SEPARATOR !in segment
    ensures |segment| <= |className| && segment == className[|className| - |segment|..]
    ensures |segment| < |className| ==> className[|className| - |segment| - 1] == NAMESPACE_SEPARATOR
  {
    var parts := Explode(className, NAMESPACE_SEPARATOR);
    ExplodeLast(className, NAMESPACE_SEPARATOR);
    parts[|parts| - 1]
  }

  /** `getEntityName`: the tableized class name without its namespace. */
  function EntityName(className: string, inflector: Inflector): (name: string)
    ensures exists k :: 0 <= k <= |className| && NAMESPACE_SEPARATOR !in className[k..] &&
                        (k > 0 ==> className[k - 1] == NAMESPACE_SEPARATOR) &&
                        name == inflector.tableize(className[k..])
  {
    var k := |className| - |LastSegment(className)|;
    assert className[k..] == LastSegment(className);
    inflector.tableize(LastSegment(className))
  }

  /** A name without a namespace is tableized whole. */
  lemma EntityNameWithoutNamespace(className: string, inflector: Inflector)
    requires NAMESPACE_SEPARATOR !in className
    ensures EntityName(className, inflector) == inflector.tableize(className)
  {
    ExplodeWithoutSeparator(className, NAMESPACE_SEPARATOR);
  }

  /** Prefixing a namespace does not change the entity name. */
  lemma EntityNameIgnoresNamespace(namespace: string, className: string, inflector: Inflector)
    ensures EntityName(namespace + [NAMESPACE_SEPARATOR] + className, inflector)
         == EntityName(className, inflector)
  {
    ExplodeConcat(namespace, className, NAMESPACE_SEPARATOR);
  }

  /** `My\Namespace\BlogPost` is named `blog_post` by an inflector that tableizes
      `BlogPost` to `blog_post`. */
  lemma BlogPostEntityName(inflector: Inflector)
    requires inflector.tableize("BlogPost") == "blog_post"
    ensures EntityName("My\\Namespace\\BlogPost", inflector) == "blog_post"
  {
    var ns, simple := "My\\Namespace", "BlogPost";
    assert ns + [NAMESPACE_SEPARATOR] + simple == "My\\Namespace\\BlogPost";
    EntityNameIgnoresNamespace(ns, simple, inflector);
    EntityNameWithoutNamespace(simple, inflector);
  }

  // ---------------------------------------------------------------------
  // getExtraDataBasedOnType

  predicate IsCollectionType(typeName: string)
  {
    typeName == ARRAY_COLLECTION || typeName == ID_COLLECTION
  }

  predicate IsKnownTypeName(typeName: string)
  {
    typeName == "integer" || typeName == "string" || IsCollectionType(typeName) || typeName == "DateTime"
  }

  /** `getExtraDataBasedOnType`: the UI field kind of one property, with the
      referenced entity and its label field for the two collection types.
      The contract reads the dispatch table backwards: which inputs produce
      each kind (the raw type name falls through unchanged, so a property
      declared with a type literally named like a kind gets that kind too). */
  function ExtraDataForType(p: PropertyMetadata, inflector: Inflector, guesser: Guesser): (r: Result<TypeData, Error>)
    ensures r.Failure? <==> IsCollectionType(p.typ.name) && |p.typ.params| == 0
    ensures r.Failure? ==> r.error == MissingTypeParameter(p.typ.name)
    ensures r.Success? ==> (r.value.kind == NUMBER <==> p.typ.name == "integer" || p.typ.name == NUMBER)
    ensures r.Success? ==> (r.value.kind == TEXT <==>
                             (p.typ.name == "string" && p.name in LONG_FORM_NAMES) || p.typ.name == TEXT)
    ensures r.Success? ==> (r.value.kind == STRING <==> p.typ.name == "string" && p.name !in LONG_FORM_NAMES)
    ensures r.Success? ==> (r.value.kind == DATE <==> p.typ.name == "DateTime" || p.typ.name == DATE)
    ensures r.Success? ==> (r.value.kind == REFERENCED_LIST <==>
                             p.typ.name == ARRAY_COLLECTION || p.typ.name == REFERENCED_LIST)
    ensures r.Success? ==> (r.value.kind == REFERENCE_MANY <==>
                             p.typ.name == ID_COLLECTION || p.typ.name == REFERENCE_MANY)
    ensures r.Success? && !IsKnownTypeName(p.typ.name) ==> r.value.kind == p.typ.name
    ensures r.Success? ==> (r.value.referencedEntity.Some? <==> IsCollectionType(p.typ.name))
    ensures r.Success? ==> (r.value.referencedField.Some? <==> IsCollectionType(p.typ.name))
    ensures r.Success? && IsCollectionType(p.typ.name) ==>
              var target := p.typ.params[0].name;
              r.value.referencedEntity == Some(EntityRef(target, EntityName(target, inflector))) &&
              r.value.referencedField == Some(guesser.guess(target))
  {
    match p.typ.name
    case "integer" => Success(TypeData(NUMBER, None, None))
    case "string" =>
      if p.name in LONG_FORM_NAMES then Success(TypeData(TEXT, None, None))
      else Success(TypeData(STRING, None, None))
    case "ArrayCollection" => CollectionData(REFERENCED_LIST, p.typ, inflector, guesser)
    case "Lemon\\RestBundle\\Serializer\\IdCollection" => CollectionData(REFERENCE_MANY, p.typ, inflector, guesser)
    case "DateTime" => Success(TypeData(DATE, None, None))
    case _ => Success(TypeData(p.typ.name, None, None))
  }

  /** The two collection branches: the first type parameter is the referenced
      class, named by its entity name and labelled by the guessed field. */
  function CollectionData(kind: string, t: JmsType, inflector: Inflector, guesser: Guesser): (r: Result<TypeData, Error>)
    ensures r.Failure? <==> |t.params| == 0
    ensures r.Failure? ==> r.error == MissingTypeParameter(t.name)
    ensures r.Success? ==>
              var target := t.params[0].name;
              r.value.kind == kind &&
              r.value.referencedEntity == Some(EntityRef(target, EntityName(target, inflector))) &&
              r.value.referencedField == Some(guesser.guess(target))
  {
    if |t.params| == 0 then Failure(MissingTypeParameter(t.name))
    else
      var target := t.params[0].name;
      Success(TypeData(kind, Some(EntityRef(target, EntityName(target, inflector))), Some(guesser.guess(target))))
  }

  /** The `string` branch looks at the reflected property name only: two
      properties that differ only in the serialized-name annotation get the
      same type data. */
  lemma StringKindIgnoresSerializedName(p: PropertyMetadata, q: PropertyMetadata, inflector: Inflector, guesser: Guesser)
    requires p.name == q.name && p.typ == q.typ
    ensures ExtraDataForType(p, inflector, guesser) == ExtraDataForType(q, inflector, guesser)
  {
  }

  // ---------------------------------------------------------------------
  // transform

  /** One field: `array_merge(['name' => translateName(p)], typeData)`. The
      type data has no `name` key, so the translated name always survives. */
  function FieldFor(p: PropertyMetadata, naming: NamingStrategy, inflector: Inflector, guesser: Guesser): (r: Result<Field, Error>)
    ensures r.Success? <==> ExtraDataForType(p, inflector, guesser).Success?
    ensures r.Failure? ==> r == Failure(ExtraDataForType(p, inflector, guesser).error)
    ensures r.Success? ==>
              var d := ExtraDataForType(p, inflector, guesser).value;
              r.value.name == naming(p) && r.value.kind == d.kind &&
              r.value.referencedEntity == d.referencedEntity && r.value.referencedField == d.referencedField
  {
    match ExtraDataForType(p, inflector, guesser)
    case Failure(e) => Failure(e)
    case Success(d) => Success(Field(naming(p), d.kind, d.referencedEntity, d.referencedField))
  }

  /** `transform`: the baseline configuration of `className`, one field per
      property metadata entry, in order; it fails with the error of the first
      property whose type data cannot be built. */
  method Transform(className: string, properties: seq<PropertyMetadata>,
                   naming: NamingStrategy, inflector: Inflector, guesser: Guesser)
    returns (r: Result<Configuration, Error>)
    ensures r.Success? <==> forall i :: 0 <= i < |properties| ==> FieldFor(properties[i], naming, inflector, guesser).Success?
    ensures r.Success? ==>
              r.value.cls == className && r.value.name == EntityName(className, inflector) &&
              r.value.hasRelationships.None? && |r.value.fields| == |properties|
    ensures r.Success? ==>
              forall i :: 0 <= i < |properties| ==>
                FieldFor(properties[i], naming, inflector, guesser) == Success(r.value.fields[i])
    ensures r.Failure? ==>
              exists i :: 0 <= i < |properties| &&
                FieldFor(properties[i], naming, inflector, guesser) == Failure(r.error) &&
                forall j :: 0 <= j < i ==> FieldFor(properties[j], naming, inflector, guesser).Success?
  {
    var entity := Configuration(className, EntityName(className, inflector), [], None);
    var i := 0;
    while i < |properties|
      invariant 0 <= i <= |properties|
      invariant entity.cls == className && entity.name == EntityName(className, inflector)
      invariant entity.hasRelationships.None? && |entity.fields| == i
      invariant forall j :: 0 <= j < i ==> FieldFor(properties[j], naming, inflector, guesser) == Success(entity.fields[j])
    {
      var field := FieldFor(properties[i], naming, inflector, guesser);
      if field.Failure? {
        return Failure(field.error);
      }
      entity := entity.(fields := entity.fields + [field.value]);
      i := i + 1;
    }
    r := Success(entity);
  }

  /** `reverseTransform` always throws. */
  function ReverseTransform(configuration: Configuration): (r: Result<string, Error>)
    ensures r == Failure(ReverseTransformUnsupported)
  {
    Failure(ReverseTransformUnsupported)
  }
}
