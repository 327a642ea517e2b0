/** The relationship enricher: NgAdminWithRelationshipsTransformer. It overlays
    the ORM's association mappings onto a baseline configuration, rewriting the
    field each mapping names into a reference descriptor. */
module RelationshipEnricher {
  import opened Wrappers
  import opened NgAdmin

  // Doctrine's association kinds (ClassMetadataInfo constants).
  const ONE_TO_ONE := 1
  const MANY_TO_ONE := 2
  const ONE_TO_MANY := 4
  const MANY_TO_MANY := 8

  datatype JoinColumn = JoinColumn(name: string)
  datatype JoinTable = JoinTable(joinColumns: seq<JoinColumn>)

  /** The keys of a Doctrine association mapping that the enricher reads;
      `joinColumns` and `joinTable` are absent (None) when the array lacks them. */
  datatype AssociationMapping = AssociationMapping(
    fieldName: string,
    kind: int,
    targetEntity: string,
    sourceEntity: string,
    joinColumns: Option<seq<JoinColumn>>,
    joinTable: Option<JoinTable>)

  /** One entry of `getAssociationMappings()`: its array key and the mapping. */
  type Association = (string, AssociationMapping)

  predicate IsHandledKind(kind: int)
  {
    kind == ONE_TO_ONE || kind == ONE_TO_MANY || kind == MANY_TO_ONE || kind == MANY_TO_MANY
  }

  // ---------------------------------------------------------------------
  // getFieldIndex and the join-column fallback

  /** The first index of a field called `name`, or None. */
  function FieldIndex(fields: seq<Field>, name: string): (r: Option<nat>)
    ensures r.Some? ==> r.value < |fields| && fields[r.value].name == name
    ensures r.Some? ==> forall j :: 0 <= j < r.value ==> fields[j].name != name
    ensures r.None? <==> forall j :: 0 <= j < |fields| ==> fields[j].name != name
    decreases |fields|
  {
    if |fields| == 0 then None
    else if fields[0].name == name then Some(0)
    else match FieldIndex(fields[1..], name)
         case None => None
         case Some(i) => Some(i + 1)
  }

  /** `getFieldIndex`: a scan that returns at the first field called `name`. */
  method GetFieldIndex(fields: seq<Field>, name: string) returns (r: Option<nat>)
    ensures r == FieldIndex(fields, name)
  {
    var index := 0;
    while index < |fields|
      invariant 0 <= index <= |fields|
      invariant forall j :: 0 <= j < index ==> fields[j].name != name
    {
      if fields[index].name == name {
        return Some(index);
      }
      index := index + 1;
    }
    return None;
  }

  /** PHP's `if ($fieldIndex)`: a missing index and index 0 are both falsy. */
  predicate Found(index: Option<nat>)
  {
    index.Some? && index.value != 0
  }

  /** The name searched for when the key is not found: the join table's first
      join column, else the mapping's first join column, else the key itself.
      Reading the first column of an empty list yields PHP `null`, which no
      field name equals (None). */
  function FallbackName(key: string, m: AssociationMapping): (r: Option<string>)
    ensures m.joinTable.None? && m.joinColumns.None? ==> r == Some(key)
    ensures m.joinTable.Some? && |m.joinTable.value.joinColumns| > 0 ==>
              r == Some(m.joinTable.value.joinColumns[0].name)
    ensures m.joinTable.None? && m.joinColumns.Some? && |m.joinColumns.value| > 0 ==>
              r == Some(m.joinColumns.value[0].name)
    ensures r.None? <==> (m.joinTable.Some? && |m.joinTable.value.joinColumns| == 0) ||
                         (m.joinTable.None? && m.joinColumns.Some? && |m.joinColumns.value| == 0)
  {
    if m.joinTable.Some? then
      if |m.joinTable.value.joinColumns| > 0 then Some(m.joinTable.value.joinColumns[0].name) else None
    else if m.joinColumns.Some? then
      if |m.joinColumns.value| > 0 then Some(m.joinColumns.value[0].name) else None
    else Some(key)
  }

  /** A name `getFieldIndex` reports as found: some field after the first is
      called `name`, and the first is not (else index 0 comes back, which is falsy). */
  predicate Locatable(fields: seq<Field>, name: string)
  {
    |fields| > 0 && fields[0].name != name &&
    exists j :: 0 < j < |fields| && fields[j].name == name
  }

  /** The index of the original field list that a mapping rewrites: the first
      field called by the key, else the first called by the fallback name;
      never index 0. */
  function MatchIndex(fields: seq<Field>, key: string, m: AssociationMapping): (r: Option<nat>)
    ensures r.Some? <==> Locatable(fields, key) ||
                         (FallbackName(key, m).Some? && Locatable(fields, FallbackName(key, m).value))
    ensures r.Some? ==> 0 < r.value < |fields|
    ensures Locatable(fields, key) ==>
              r.Some? && fields[r.value].name == key &&
              forall j :: 0 <= j < r.value ==> fields[j].name != key
    ensures !Locatable(fields, key) && r.Some? ==>
              fields[r.value].name == FallbackName(key, m).value &&
              forall j :: 0 <= j < r.value ==> fields[j].name != FallbackName(key, m).value
  {
    FoundIffLocatable(fields, key);
    var first := FieldIndex(fields, key);
    if Found(first) then first
    else
      var fallback := FallbackName(key, m);
      if fallback.None? then None
      else
        FoundIffLocatable(fields, fallback.value);
        var second := FieldIndex(fields, fallback.value);
        if Found(second) then second else None
  }

  lemma FoundIffLocatable(fields: seq<Field>, name: string)
    ensures Found(FieldIndex(fields, name)) <==> Locatable(fields, name)
  {
    if Locatable(fields, name) {
      var j :| 0 < j < |fields| && fields[j].name == name;
      assert FieldIndex(fields, name).Some?;
    }
  }

  // ---------------------------------------------------------------------
  // the four descriptor builders

  /** The naming rule of the three pluralizing builders: the plural of the field
      name, and the field name itself as the singular unless pluralizing left it
      unchanged, in which case its singular. The two coincide only when both
      inflections leave the name unchanged. */
  function PluralAndSingle(fieldName: string, inflector: Inflector): (names: (string, string))
    ensures names.0 == inflector.pluralize(fieldName)
    ensures names.1 == fieldName || (names.0 == fieldName && names.1 == inflector.singularize(fieldName))
    ensures names.0 == names.1 <==>
              inflector.pluralize(fieldName) == fieldName && inflector.singularize(fieldName) == fieldName
  {
    var pluralForm := inflector.pluralize(fieldName);
    var singleForm := if fieldName == pluralForm then inflector.singularize(fieldName) else fieldName;
    (pluralForm, singleForm)
  }

  /** `transformOneToOneMapping`: a single reference to the target class whose
      display name and referenced-entity name are both the raw field name. */
  function OneToOneField(m: AssociationMapping, guesser: Guesser): (f: Field)
    ensures f.kind == REFERENCE && f.name == m.fieldName
    ensures f.referencedEntity == Some(EntityRef(m.targetEntity, f.name))
    ensures f.referencedField == Some(guesser.guess(m.targetEntity))
  {
    Field(m.fieldName, REFERENCE, Some(EntityRef(m.targetEntity, m.fieldName)), Some(guesser.guess(m.targetEntity)))
  }

  /** `transformOneToManyMapping`: a list of the target class under the plural
      name; its label is the back-reference field guessed from the source class. */
  function OneToManyField(m: AssociationMapping, inflector: Inflector, guesser: Guesser): (f: Field)
    ensures f.kind == REFERENCED_LIST
    ensures f.referencedEntity.Some? && f.referencedEntity.value.cls == m.targetEntity
    ensures (f.name, f.referencedEntity.value.name) == PluralAndSingle(m.fieldName, inflector)
    ensures f.referencedField == Some(guesser.guessTargetReferenceField(m.sourceEntity))
  {
    var names := PluralAndSingle(m.fieldName, inflector);
    Field(names.0, REFERENCED_LIST, Some(EntityRef(m.targetEntity, names.1)),
          Some(guesser.guessTargetReferenceField(m.sourceEntity)))
  }

  /** `transformManyToOneMapping`: a single reference to the target class under
      the plural name, labelled by the field guessed on the target. */
  function ManyToOneField(m: AssociationMapping, inflector: Inflector, guesser: Guesser): (f: Field)
    ensures f.kind == REFERENCE
    ensures f.referencedEntity.Some? && f.referencedEntity.value.cls == m.targetEntity
    ensures (f.name, f.referencedEntity.value.name) == PluralAndSingle(m.fieldName, inflector)
    ensures f.referencedField == Some(guesser.guess(m.targetEntity))
  {
    var names := PluralAndSingle(m.fieldName, inflector);
    Field(names.0, REFERENCE, Some(EntityRef(m.targetEntity, names.1)), Some(guesser.guess(m.targetEntity)))
  }

  /** `transformManyToManyMapping`: a many-valued reference to the target class
      under the plural name, labelled by the field guessed on the target. */
  function ManyToManyField(m: AssociationMapping, inflector: Inflector, guesser: Guesser): (f: Field)
    ensures f.kind == REFERENCE_MANY
    ensures f.referencedEntity.Some? && f.referencedEntity.value.cls == m.targetEntity
    ensures (f.name, f.referencedEntity.value.name) == PluralAndSingle(m.fieldName, inflector)
    ensures f.referencedField == Some(guesser.guess(m.targetEntity))
  {
    var names := PluralAndSingle(m.fieldName, inflector);
    Field(names.0, REFERENCE_MANY, Some(EntityRef(m.targetEntity, names.1)), Some(guesser.guess(m.targetEntity)))
  }

  /** The `switch` on the mapping type: one of the four builders, or the
      "Unhandled relationship type" exception. Every descriptor points at the
      target class and carries a guessed label field; the kind tells single
      from many-valued references. */
  function TransformMapping(m: AssociationMapping, inflector: Inflector, guesser: Guesser): (r: Result<Field, Error>)
    ensures r.Failure? <==> !IsHandledKind(m.kind)
    ensures r.Failure? ==> r.error == UnhandledRelationshipType(m.kind)
    ensures r.Success? ==> r.value.referencedEntity.Some? && r.value.referencedEntity.value.cls == m.targetEntity
    ensures r.Success? ==> (r.value.kind == REFERENCE <==> m.kind == ONE_TO_ONE || m.kind == MANY_TO_ONE)
    ensures r.Success? ==> (r.value.kind == REFERENCED_LIST <==> m.kind == ONE_TO_MANY)
    ensures r.Success? ==> (r.value.kind == REFERENCE_MANY <==> m.kind == MANY_TO_MANY)
    ensures r.Success? && m.kind == ONE_TO_MANY ==>
              r.value.referencedField == Some(guesser.guessTargetReferenceField(m.sourceEntity))
    ensures r.Success? && m.kind != ONE_TO_MANY ==> r.value.referencedField == Some(guesser.guess(m.targetEntity))
    ensures r.Success? && m.kind == ONE_TO_ONE ==>
              r.value.name == m.fieldName && r.value.referencedEntity.value.name == m.fieldName
    ensures r.Success? && m.kind != ONE_TO_ONE ==>
              (r.value.name, r.value.referencedEntity.value.name) == PluralAndSingle(m.fieldName, inflector)
  {
    if m.kind == ONE_TO_ONE then Success(OneToOneField(m, guesser))
    else if m.kind == ONE_TO_MANY then Success(OneToManyField(m, inflector, guesser))
    else if m.kind == MANY_TO_ONE then Success(ManyToOneField(m, inflector, guesser))
    else if m.kind == MANY_TO_MANY then Success(ManyToManyField(m, inflector, guesser))
    else Failure(UnhandledRelationshipType(m.kind))
  }

  /** One-to-one keeps the raw field name both as the field's name and as the
      referenced entity's name; many-to-one differs from it in naming alone, and
      the names agree exactly when pluralizing leaves the field name unchanged
      and singularizing does too. */
  lemma OneToOneVersusManyToOne(m: AssociationMapping, inflector: Inflector, guesser: Guesser)
    ensures var one := OneToOneField(m, guesser);
            one.name == m.fieldName && one.referencedEntity == Some(EntityRef(m.targetEntity, m.fieldName))
    ensures var one := OneToOneField(m, guesser);
            var many := ManyToOneField(m, inflector, guesser);
            one.kind == many.kind && one.referencedField == many.referencedField &&
            one.referencedEntity.value.cls == many.referencedEntity.value.cls &&
            (one == many <==> inflector.pluralize(m.fieldName) == m.fieldName &&
                              inflector.singularize(m.fieldName) == m.fieldName)
  {
  }

  /** The three pluralizing builders name the field by the plural and the
      referenced entity by the singular form; the displayed name differs from
      the referenced entity's name unless both inflections fix the field name. */
  lemma PluralizedNaming(m: AssociationMapping, inflector: Inflector, guesser: Guesser)
    requires m.kind == ONE_TO_MANY || m.kind == MANY_TO_ONE || m.kind == MANY_TO_MANY
    ensures var f := TransformMapping(m, inflector, guesser).value;
            f.name == inflector.pluralize(m.fieldName) &&
            f.referencedEntity.value.name ==
              (if inflector.pluralize(m.fieldName) == m.fieldName then inflector.singularize(m.fieldName)
               else m.fieldName)
    ensures var f := TransformMapping(m, inflector, guesser).value;
            f.name == f.referencedEntity.value.name <==>
              inflector.pluralize(m.fieldName) == m.fieldName && inflector.singularize(m.fieldName) == m.fieldName
  {
  }

  /** `{fieldName: "author", type: ManyToOne, targetEntity: "User"}` becomes
      `{name: "authors", type: "reference", referencedEntity.name: "author"}`
      under a pluralizer that gives `authors`. */
  lemma AuthorManyToOneExample(m: AssociationMapping, inflector: Inflector, guesser: Guesser)
    requires m.fieldName == "author" && m.kind == MANY_TO_ONE && m.targetEntity == "User"
    requires inflector.pluralize("author") == "authors"
    ensures TransformMapping(m, inflector, guesser) ==
              Success(Field("authors", REFERENCE, Some(EntityRef("User", "author")), Some(guesser.guess("User"))))
  {
  }

  // ---------------------------------------------------------------------
  // transform

  /** One iteration of the `foreach`: the match is looked up in the ORIGINAL
      fields; an unmatched mapping leaves `current` as it is, a matched one
      overwrites that index or throws on an unhandled kind. */
  function ApplyMapping(original: seq<Field>, current: seq<Field>, a: Association,
                        inflector: Inflector, guesser: Guesser): (r: Result<seq<Field>, Error>)
    requires |current| == |original|
    ensures r.Failure? <==> MatchIndex(original, a.0, a.1).Some? && !IsHandledKind(a.1.kind)
    ensures r.Success? ==> |r.value| == |current|
    ensures r.Success? ==>
              forall k :: 0 <= k < |current| && MatchIndex(original, a.0, a.1) != Some(k) ==> r.value[k] == current[k]
    ensures r.Success? && MatchIndex(original, a.0, a.1).Some? ==>
              Success(r.value[MatchIndex(original, a.0, a.1).value]) == TransformMapping(a.1, inflector, guesser)
  {
    var index := MatchIndex(original, a.0, a.1);
    if index.None? then Success(current)
    else
      match TransformMapping(a.1, inflector, guesser)
      case Failure(e) => Failure(e)
      case Success(f) => Success(current[index.value := f])
  }

  /** The rest of the `foreach`, from `current` on, over the remaining mappings. */
  function ApplyMappings(original: seq<Field>, current: seq<Field>, mappings: seq<Association>,
                         inflector: Inflector, guesser: Guesser): (r: Result<seq<Field>, Error>)
    requires |current| == |original|
    ensures r.Success? ==> |r.value| == |current|
    ensures r.Success? && |current| > 0 ==> r.value[0] == current[0]
    decreases |mappings|
  {
    if |mappings| == 0 then Success(current)
    else
      match ApplyMapping(original, current, mappings[0], inflector, guesser)
      case Failure(e) => Failure(e)
      case Success(next) => ApplyMappings(original, next, mappings[1..], inflector, guesser)
  }

  /** The result of `transform` as a function of its inputs. */
  function Enrich(configuration: Configuration, mappings: seq<Association>,
                  inflector: Inflector, guesser: Guesser): (r: Result<Configuration, Error>)
    ensures |mappings| == 0 ==> r == Success(configuration.(hasRelationships := Some(false)))
    ensures r.Success? ==>
              r.value.cls == configuration.cls && r.value.name == configuration.name &&
              r.value.hasRelationships == Some(|mappings| > 0) &&
              |r.value.fields| == |configuration.fields|
  {
    var marked := configuration.(hasRelationships := Some(|mappings| > 0));
    if |mappings| == 0 then Success(marked)
    else
      match ApplyMappings(configuration.fields, configuration.fields, mappings, inflector, guesser)
      case Failure(e) => Failure(e)
      case Success(fields) => Success(marked.(fields := fields))
  }

  /** `transform`: copy the configuration, record whether there are mappings,
      and overwrite in place the field each matched mapping names. */
  method Transform(configuration: Configuration, associationMappings: seq<Association>,
                   inflector: Inflector, guesser: Guesser)
    returns (r: Result<Configuration, Error>)
    ensures r == Enrich(configuration, associationMappings, inflector, guesser)
  {
    var transformed := configuration.(hasRelationships := Some(|associationMappings| > 0));
    if |associationMappings| == 0 {
      return Success(transformed);
    }
    var original := configuration.fields;
    var i := 0;
    while i < |associationMappings|
      invariant 0 <= i <= |associationMappings|
      invariant transformed.cls == configuration.cls && transformed.name == configuration.name
      invariant transformed.hasRelationships == Some(true)
      invariant |transformed.fields| == |original|
      invariant ApplyMappings(original, transformed.fields, associationMappings[i..], inflector, guesser)
             == ApplyMappings(original, original, associationMappings, inflector, guesser)
    {
      var (fieldName, associationMapping) := associationMappings[i];
      ghost var rest := associationMappings[i..];
      assert rest[0] == (fieldName, associationMapping) && rest[1..] == associationMappings[i + 1..];
      var fieldIndex := FindFieldToModify(original, fieldName, associationMapping);
      if fieldIndex.None? {
        SkippedStep(original, transformed.fields, rest, inflector, guesser);
        i := i + 1;
        continue;
      }
      var transformedField := TransformMapping(associationMapping, inflector, guesser);
      if transformedField.Failure? {
        return Failure(transformedField.error);
      }
      AppliedStep(original, transformed.fields, rest, inflector, guesser);
      transformed := transformed.(fields := transformed.fields[fieldIndex.value := transformedField.value]);
      i := i + 1;
    }
    assert associationMappings[i..] == [];
    r := Success(transformed);
  }

  /** The lookup at the head of the `foreach` body: by the key, and when that
      index is falsy, by the fallback name; a falsy result again means the
      mapping is skipped (None). */
  method FindFieldToModify(original: seq<Field>, fieldName: string, associationMapping: AssociationMapping)
    returns (fieldIndex: Option<nat>)
    ensures fieldIndex == MatchIndex(original, fieldName, associationMapping)
  {
    fieldIndex := GetFieldIndex(original, fieldName);
    if !Found(fieldIndex) {
      var fallback := FallbackName(fieldName, associationMapping);
      if fallback.None? {
        return None;
      }
      fieldIndex := GetFieldIndex(original, fallback.value);
      if !Found(fieldIndex) {
        return None;
      }
    }
  }

  /** A first mapping that matches no field leaves the fold to the others. */
  lemma SkippedStep(original: seq<Field>, current: seq<Field>, mappings: seq<Association>,
                    inflector: Inflector, guesser: Guesser)
    requires |current| == |original| && |mappings| > 0
    requires MatchIndex(original, mappings[0].0, mappings[0].1).None?
    ensures ApplyMappings(original, current, mappings, inflector, guesser)
         == ApplyMappings(original, current, mappings[1..], inflector, guesser)
  {
  }

  /** A first mapping that matches and has a handled kind overwrites its index
      before the fold goes on. */
  lemma AppliedStep(original: seq<Field>, current: seq<Field>, mappings: seq<Association>,
                    inflector: Inflector, guesser: Guesser)
    requires |current| == |original| && |mappings| > 0
    requires MatchIndex(original, mappings[0].0, mappings[0].1).Some?
    requires TransformMapping(mappings[0].1, inflector, guesser).Success?
    ensures ApplyMappings(original, current, mappings, inflector, guesser)
         == ApplyMappings(original,
                          current[MatchIndex(original, mappings[0].0, mappings[0].1).value :=
                                  TransformMapping(mappings[0].1, inflector, guesser).value],
                          mappings[1..], inflector, guesser)
  {
  }

  /** `reverseTransform` always throws. */
  function ReverseTransform(configuration: Configuration): (r: Result<Configuration, Error>)
    ensures r == Failure(ReverseTransformUnsupported)
  {
    Failure(ReverseTransformUnsupported)
  }

  // ---------------------------------------------------------------------
  // properties of the enrichment

  /** The mapping that writes index `k` last, if any: a later match overwrites
      an earlier one. */
  function LastWriter(original: seq<Field>, mappings: seq<Association>, k: nat): (r: Option<AssociationMapping>)
    ensures r.None? <==> forall i :: 0 <= i < |mappings| ==> MatchIndex(original, mappings[i].0, mappings[i].1) != Some(k)
    ensures r.Some? ==>
              exists i :: 0 <= i < |mappings| && mappings[i].1 == r.value && MatchIndex(original, mappings[i].0, mappings[i].1) == Some(k) &&
                forall j :: i < j < |mappings| ==> MatchIndex(original, mappings[j].0, mappings[j].1) != Some(k)
    decreases |mappings|
  {
    if |mappings| == 0 then None
    else
      var later := LastWriter(original, mappings[1..], k);
      if later.Some? then later
      else if MatchIndex(original, mappings[0].0, mappings[0].1) == Some(k) then Some(mappings[0].1)
      else None
  }

  /** The fold succeeds exactly when every mapping that matches a field has one
      of the four handled kinds. */
  lemma {:induction false} ApplyMappingsSucceeds(original: seq<Field>, current: seq<Field>, mappings: seq<Association>,
                                                 inflector: Inflector, guesser: Guesser)
    requires |current| == |original|
    ensures var r := ApplyMappings(original, current, mappings, inflector, guesser);
            r.Success? <==> forall i :: 0 <= i < |mappings| && MatchIndex(original, mappings[i].0, mappings[i].1).Some? ==>
                                          IsHandledKind(mappings[i].1.kind)
    decreases |mappings|
  {
    if |mappings| > 0 {
      var step := ApplyMapping(original, current, mappings[0], inflector, guesser);
      if step.Success? {
        ApplyMappingsSucceeds(original, step.value, mappings[1..], inflector, guesser);
        assert forall i :: 1 <= i < |mappings| ==> mappings[i] == mappings[1..][i - 1];
      }
    }
  }

  /** Every mapping before index `i` that matches a field has a handled kind. */
  predicate HandledBefore(original: seq<Field>, mappings: seq<Association>, i: nat)
    requires i <= |mappings|
  {
    forall j :: 0 <= j < i && MatchIndex(original, mappings[j].0, mappings[j].1).Some? ==>
                  IsHandledKind(mappings[j].1.kind)
  }

  /** Mapping `i` is the first matched mapping with an unhandled kind. */
  predicate FirstUnhandledAt(original: seq<Field>, mappings: seq<Association>, i: nat)
  {
    i < |mappings| && MatchIndex(original, mappings[i].0, mappings[i].1).Some? &&
    !IsHandledKind(mappings[i].1.kind) && HandledBefore(original, mappings, i)
  }

  /** Putting a mapping that does not fail in front moves the first failure one on. */
  lemma FirstUnhandledShift(original: seq<Field>, mappings: seq<Association>, i: nat)
    requires |mappings| > 0 && FirstUnhandledAt(original, mappings[1..], i)
    requires MatchIndex(original, mappings[0].0, mappings[0].1).Some? ==> IsHandledKind(mappings[0].1.kind)
    ensures FirstUnhandledAt(original, mappings, i + 1)
  {
    var tail := mappings[1..];
    assert mappings[i + 1] == tail[i];
    forall j | 0 <= j < i + 1 && MatchIndex(original, mappings[j].0, mappings[j].1).Some?
      ensures IsHandledKind(mappings[j].1.kind)
    {
      if j > 0 { assert mappings[j] == tail[j - 1]; }
    }
  }

  /** A failing fold fails at the first matched mapping whose kind is
      unhandled, in iteration order, and carries that kind. */
  lemma {:induction false} ApplyMappingsFirstFailure(original: seq<Field>, current: seq<Field>, mappings: seq<Association>,
                                                     inflector: Inflector, guesser: Guesser)
    requires |current| == |original|
    requires ApplyMappings(original, current, mappings, inflector, guesser).Failure?
    ensures exists i: nat :: FirstUnhandledAt(original, mappings, i) &&
                        ApplyMappings(original, current, mappings, inflector, guesser).error ==
                          UnhandledRelationshipType(mappings[i].1.kind)
    decreases |mappings|
  {
    var step := ApplyMapping(original, current, mappings[0], inflector, guesser);
    if step.Failure? {
      assert FirstUnhandledAt(original, mappings, 0);
    } else {
      var tail := mappings[1..];
      ApplyMappingsFirstFailure(original, step.value, tail, inflector, guesser);
      var i: nat :| FirstUnhandledAt(original, tail, i) &&
               ApplyMappings(original, step.value, tail, inflector, guesser).error ==
                 UnhandledRelationshipType(tail[i].1.kind);
      FirstUnhandledShift(original, mappings, i);
      assert mappings[i + 1] == tail[i];
    }
  }

  /** Each field of the result is the original field, unless some mapping
      matched its index, in which case it is the descriptor of the last such
      mapping. */
  lemma {:induction false} ApplyMappingsFields(original: seq<Field>, current: seq<Field>, mappings: seq<Association>,
                                               inflector: Inflector, guesser: Guesser)
    requires |current| == |original|
    requires ApplyMappings(original, current, mappings, inflector, guesser).Success?
    ensures var fields := ApplyMappings(original, current, mappings, inflector, guesser).value;
            |fields| == |current| &&
            forall k :: 0 <= k < |current| ==>
              match LastWriter(original, mappings, k)
              case None => fields[k] == current[k]
              case Some(m) => TransformMapping(m, inflector, guesser) == Success(fields[k])
    decreases |mappings|
  {
    if |mappings| > 0 {
      var next := ApplyMapping(original, current, mappings[0], inflector, guesser).value;
      ApplyMappingsFields(original, next, mappings[1..], inflector, guesser);
    }
  }

  /** With no association mappings the configuration passes through unchanged
      except that `has_relationships` becomes false. */
  lemma EnrichWithoutMappings(configuration: Configuration, inflector: Inflector, guesser: Guesser)
    ensures Enrich(configuration, [], inflector, guesser) ==
              Success(configuration.(hasRelationships := Some(false)))
  {
  }

  /** The whole of `transform`: it fails exactly when a matched mapping has an
      unhandled kind; otherwise class and name are kept, `has_relationships`
      says whether there is any mapping, the field list keeps its length, the
      first field is never rewritten, and every other field is its original
      unless a mapping matched it, when it is the last such mapping's descriptor. */
  lemma EnrichSpec(configuration: Configuration, mappings: seq<Association>, inflector: Inflector, guesser: Guesser)
    ensures var r := Enrich(configuration, mappings, inflector, guesser);
            r.Success? <==> forall i :: 0 <= i < |mappings| && MatchIndex(configuration.fields, mappings[i].0, mappings[i].1).Some? ==>
                                          IsHandledKind(mappings[i].1.kind)
    ensures var r := Enrich(configuration, mappings, inflector, guesser);
            r.Failure? ==> exists i: nat :: FirstUnhandledAt(configuration.fields, mappings, i) &&
                                       r.error == UnhandledRelationshipType(mappings[i].1.kind)
    ensures var r := Enrich(configuration, mappings, inflector, guesser);
            r.Success? ==>
              r.value.cls == configuration.cls && r.value.name == configuration.name &&
              r.value.hasRelationships == Some(|mappings| > 0) &&
              |r.value.fields| == |configuration.fields|
    ensures var r := Enrich(configuration, mappings, inflector, guesser);
            r.Success? && |configuration.fields| > 0 ==> r.value.fields[0] == configuration.fields[0]
    ensures var r := Enrich(configuration, mappings, inflector, guesser);
            r.Success? ==>
              forall k :: 0 <= k < |configuration.fields| ==>
                match LastWriter(configuration.fields, mappings, k)
                case None => r.value.fields[k] == configuration.fields[k]
                case Some(m) => TransformMapping(m, inflector, guesser) == Success(r.value.fields[k])
  {
    var fields := configuration.fields;
    if |mappings| > 0 {
      ApplyMappingsSucceeds(fields, fields, mappings, inflector, guesser);
      if ApplyMappings(fields, fields, mappings, inflector, guesser).Failure? {
        ApplyMappingsFirstFailure(fields, fields, mappings, inflector, guesser);
      } else {
        ApplyMappingsFields(fields, fields, mappings, inflector, guesser);
        if |fields| > 0 {
          assert LastWriter(fields, mappings, 0).None?;
        }
      }
    }
  }

  /** A mapping matched by neither its key nor its fallback name changes
      nothing: a configuration whose mappings all miss keeps its fields. */
  lemma UnmatchedMappingsAreSkipped(configuration: Configuration, mappings: seq<Association>,
                                    inflector: Inflector, guesser: Guesser)
    requires forall i :: 0 <= i < |mappings| ==> MatchIndex(configuration.fields, mappings[i].0, mappings[i].1).None?
    ensures Enrich(configuration, mappings, inflector, guesser) ==
              Success(configuration.(hasRelationships := Some(|mappings| > 0)))
  {
    EnrichSpec(configuration, mappings, inflector, guesser);
    var r := Enrich(configuration, mappings, inflector, guesser);
    forall k | 0 <= k < |configuration.fields|
      ensures r.value.fields[k] == configuration.fields[k]
    {
      assert LastWriter(configuration.fields, mappings, k).None?;
    }
    assert r.value.fields == configuration.fields;
  }
}
