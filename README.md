# ng-admin configuration generator, modelled in Dafny

This project models the two transformers of the ng-admin generator bundle. Together they
turn the metadata of one PHP class into an ng-admin entity configuration.

1. **Property classifier** (`ClassNameToNgAdminConfigurationTransformer`, module
   `PropertyClassifier` in `classifier.dfy`).
   - It builds `{class, name, fields}` from a class name and the serializer's ordered property metadata.
   - The entity name is the tableized last `\`-separated segment of the class name. `explode` is modelled as `Explode`.
   - Each property gives exactly one field, in order. The field's name comes from the naming
     strategy. Its `type` comes from the dispatch on the declared type: `integer`, `string`
     (`text` for the reflected names `body`, `content`, `details`), `ArrayCollection`,
     `Lemon\RestBundle\Serializer\IdCollection`, `DateTime`, or the raw type name.
2. **Relationship enricher** (`NgAdminWithRelationshipsTransformer`, module
   `RelationshipEnricher` in `enricher.dfy`).
   - It sets `has_relationships` and walks the association mappings.
   - Each mapping is looked up in the *original* field list: first by its key, then by a join-column fallback name.
   - A matched field is overwritten in place by a one-to-one, one-to-many, many-to-one or many-to-many descriptor.
   - An unhandled kind throws.
   - `getFieldIndex` returns an index, and `if (!$fieldIndex)` treats index 0 as "not found".
     The model keeps this: `Found` rejects `Some(0)`, so the first field is never rewritten.

`ngadmin.dfy` holds the document model (`Field`, `EntityRef`, `Configuration`), the error
values, and the foreign collaborators. `wrappers.dfy` holds `Option` and `Result`. Doctrine's
association kinds are the integers 1, 2, 4 and 8 of its `ClassMetadataInfo` constants, so an
unhandled kind is any other integer.

The transformers' `foreach` loops and `getFieldIndex`'s early-return scan are methods with loop
invariants. The two lookups at the head of the enricher's loop body are kept apart as
`FindFieldToModify`.
- Classifier `Transform` states its result outright.
- Enricher `Transform` is proved equal to the fold `Enrich`. The lemmas then characterise `Enrich` completely:
  - it succeeds iff every matched mapping has a handled kind, and otherwise fails with the kind of the first matched mapping, in iteration order, whose kind is unhandled;
  - every field is either its original or the descriptor of the last mapping that matched its index (`LastWriter`).

Behaviour the model keeps as the code has it:
- The join-table fallback is taken whenever the mapping has a `joinTable` key, whatever its kind.
- The referenced entity of the one-to-many, many-to-one and many-to-many descriptors is named by the field name. Only when pluralizing leaves the name unchanged is it the singular instead.
- So a name fixed by both inflections gets equal display and referenced names (`PluralAndSingle`, `PluralizedNaming`).
- An unhandled relationship kind throws only for a mapping that matched a field; unmatched mappings are skipped before the kind is examined.

## Model

| member | source | states |
|---|---|---|
| `PropertyClassifier.Transform` | Transformer/ClassNameToNgAdminConfigurationTransformer.php:25-43 | the result has `class` = the class name, `name` = its entity name, no `has_relationships`, and exactly one field per property, in order; it fails iff some property's field fails, with the error of the first such property |
| `PropertyClassifier.FieldFor` | Transformer/ClassNameToNgAdminConfigurationTransformer.php:36-37 | a field's `name` is always the translated name, and everything else is the property's type data (the keys are disjoint under `array_merge`) |
| `PropertyClassifier.ExtraDataForType` | Transformer/ClassNameToNgAdminConfigurationTransformer.php:50-96 | for each kind, which declared types produce it: `number` iff `integer`; `text` iff `string` with a reflected name in body/content/details; `string` iff another `string`; `referenced_list` iff `ArrayCollection`; `reference_many` iff the IdCollection type; `date` iff `DateTime`; raw names that spell a kind also give it; an unknown type name passes through; reference data iff a collection, pointing at the first type parameter with its entity name and guessed label; fails iff a collection has no type parameter |
| `PropertyClassifier.StringKindIgnoresSerializedName` | Transformer/ClassNameToNgAdminConfigurationTransformer.php:58-67 | the type data depends on the reflected name and the type only, not on the serialized-name annotation |
| `PropertyClassifier.CollectionData` | Transformer/ClassNameToNgAdminConfigurationTransformer.php:69-87 | a collection type fails iff it has no type parameter; otherwise its kind is the one given, its `referencedEntity` is the first type parameter with that class's entity name, and its `referencedField` is the guess for that class |
| `PropertyClassifier.ReverseTransform` | Transformer/ClassNameToNgAdminConfigurationTransformer.php:45-48 | always fails |
| `PropertyClassifier.Explode` | Transformer/ClassNameToNgAdminConfigurationTransformer.php:100 | `explode` gives at least one piece and no piece contains the separator |
| `PropertyClassifier.ImplodeExplode` | Transformer/ClassNameToNgAdminConfigurationTransformer.php:100 | imploding the pieces gives back the input |
| `PropertyClassifier.ExplodeImplode` | Transformer/ClassNameToNgAdminConfigurationTransformer.php:100 | exploding separator-free pieces glued by the separator gives back those pieces |
| `PropertyClassifier.ExplodeWithoutSeparator` | Transformer/ClassNameToNgAdminConfigurationTransformer.php:100 | a separator-free string explodes to itself alone |
| `PropertyClassifier.ExplodeConcat` | Transformer/ClassNameToNgAdminConfigurationTransformer.php:100 | exploding `a\b` gives the pieces of `a` followed by those of `b` |
| `PropertyClassifier.ExplodeLast` | Transformer/ClassNameToNgAdminConfigurationTransformer.php:100-101 | the last piece is a suffix of the input, preceded by a separator unless it is the whole input, and strictly shorter when there are several pieces |
| `PropertyClassifier.LastSegment` | Transformer/ClassNameToNgAdminConfigurationTransformer.php:100-101 | the segment kept is exactly the text after the last `\`, or the whole name when there is none: a separator-free suffix preceded by `\` unless it is the whole name |
| `PropertyClassifier.EntityName` | Transformer/ClassNameToNgAdminConfigurationTransformer.php:98-104 | the entity name is `tableize` of a separator-free suffix of the class name that is preceded by `\` unless it is the whole name |
| `PropertyClassifier.EntityNameWithoutNamespace` | Transformer/ClassNameToNgAdminConfigurationTransformer.php:98-104 | a name without `\` is tableized whole |
| `PropertyClassifier.EntityNameIgnoresNamespace` | Transformer/ClassNameToNgAdminConfigurationTransformer.php:98-104 | prefixing a namespace does not change the entity name |
| `PropertyClassifier.BlogPostEntityName` | Transformer/ClassNameToNgAdminConfigurationTransformer.php:98-104 | `My\Namespace\BlogPost` is named `blog_post` when `tableize("BlogPost")` is `blog_post` |
| `RelationshipEnricher.FieldIndex` | Transformer/NgAdminWithRelationshipsTransformer.php:82-89 | the first index whose field has the searched name, or none iff no field has it |
| `RelationshipEnricher.GetFieldIndex` | Transformer/NgAdminWithRelationshipsTransformer.php:82-89 | the early-return scan computes exactly that first index |
| `RelationshipEnricher.FoundIffLocatable` | Transformer/NgAdminWithRelationshipsTransformer.php:34 | `if ($fieldIndex)` holds iff some field after the first has the name and the first does not |
| `RelationshipEnricher.FallbackName` | Transformer/NgAdminWithRelationshipsTransformer.php:36-42 | the fallback is the join table's first join column, else the mapping's first join column, else the key itself; it is null exactly when the list it reads is empty |
| `RelationshipEnricher.FindFieldToModify` | Transformer/NgAdminWithRelationshipsTransformer.php:33-47 | the lookup by key and then by fallback name, with PHP's falsy index test, yields exactly `MatchIndex` (None when the mapping is skipped) |
| `RelationshipEnricher.MatchIndex` | Transformer/NgAdminWithRelationshipsTransformer.php:33-47 | a mapping matches iff its key or its fallback name is locatable in the original fields; the match is never index 0; by the key when the key is locatable, else by the fallback; in both cases the first field of that name |
| `RelationshipEnricher.PluralAndSingle` | Transformer/NgAdminWithRelationshipsTransformer.php:106-110 | the display name is the plural; the singular is the field name unless pluralizing left it unchanged, then its singular; the two coincide iff both inflections fix the name |
| `RelationshipEnricher.OneToOneField` | Transformer/NgAdminWithRelationshipsTransformer.php:91-102 | a `reference` to the target class whose display name and referenced-entity name are both the raw field name, labelled by `guess(targetEntity)` |
| `RelationshipEnricher.OneToManyField` | Transformer/NgAdminWithRelationshipsTransformer.php:104-120 | a `referenced_list` of the target class named by `PluralAndSingle`, labelled by `guessTargetReferenceField(sourceEntity)` |
| `RelationshipEnricher.ManyToOneField` | Transformer/NgAdminWithRelationshipsTransformer.php:122-138 | a `reference` to the target class named by `PluralAndSingle`, labelled by `guess(targetEntity)` |
| `RelationshipEnricher.ManyToManyField` | Transformer/NgAdminWithRelationshipsTransformer.php:140-156 | a `reference_many` of the target class named by `PluralAndSingle`, labelled by `guess(targetEntity)` |
| `RelationshipEnricher.TransformMapping` | Transformer/NgAdminWithRelationshipsTransformer.php:50-69 | fails iff the kind is none of the four, with that kind; every descriptor references the target class; `reference` iff one-to-one or many-to-one, `referenced_list` iff one-to-many, `reference_many` iff many-to-many; the label comes from `guessTargetReferenceField(sourceEntity)` for one-to-many and from `guess(targetEntity)` otherwise; a one-to-one descriptor keeps the raw field name as both its name and its referenced entity's name, the other three take their names from `PluralAndSingle` |
| `RelationshipEnricher.OneToOneVersusManyToOne` | Transformer/NgAdminWithRelationshipsTransformer.php:91-138 | one-to-one keeps the raw field name as both names; it agrees with many-to-one in kind, class and label, and equals it iff both inflections fix the field name |
| `RelationshipEnricher.PluralizedNaming` | Transformer/NgAdminWithRelationshipsTransformer.php:104-156 | the three pluralizing descriptors (one-to-many, many-to-one, many-to-many) are named by `pluralize(f)` and reference `f`, or `singularize(f)` when `pluralize(f) == f`; the two names are equal iff both inflections fix `f` |
| `RelationshipEnricher.AuthorManyToOneExample` | Transformer/NgAdminWithRelationshipsTransformer.php:122-138 | a many-to-one `author` mapping to `User` becomes `{name: authors, type: reference, referencedEntity: {User, author}}` |
| `RelationshipEnricher.ApplyMapping` | Transformer/NgAdminWithRelationshipsTransformer.php:31-71 | one iteration fails iff the mapping matched and its kind is unhandled; otherwise only the matched index changes, to the mapping's descriptor |
| `RelationshipEnricher.ApplyMappings` | Transformer/NgAdminWithRelationshipsTransformer.php:31-72 | the loop over the mappings keeps the length of the field list and never changes field 0 |
| `RelationshipEnricher.Enrich` | Transformer/NgAdminWithRelationshipsTransformer.php:21-75 | with no mappings the input comes back with `has_relationships = false`; on success class and name are kept, `has_relationships` says whether there is a mapping, and the field count is kept |
| `RelationshipEnricher.SkippedStep` | Transformer/NgAdminWithRelationshipsTransformer.php:44-46 | an unmatched mapping contributes nothing to the rest of the loop |
| `RelationshipEnricher.AppliedStep` | Transformer/NgAdminWithRelationshipsTransformer.php:71 | a matched, handled mapping overwrites its index before the loop goes on |
| `RelationshipEnricher.Transform` | Transformer/NgAdminWithRelationshipsTransformer.php:21-75 | the in-place loop computes exactly `Enrich` |
| `RelationshipEnricher.ReverseTransform` | Transformer/NgAdminWithRelationshipsTransformer.php:77-80 | always fails |
| `RelationshipEnricher.LastWriter` | Transformer/NgAdminWithRelationshipsTransformer.php:31-72 | the mapping that writes an index is the last one matching it, and there is none iff no mapping matches it |
| `RelationshipEnricher.ApplyMappingsSucceeds` | Transformer/NgAdminWithRelationshipsTransformer.php:31-72 | the loop succeeds iff every matched mapping has a handled kind |
| `RelationshipEnricher.ApplyMappingsFirstFailure` | Transformer/NgAdminWithRelationshipsTransformer.php:50-68 | a failing loop fails at the first matched mapping, in iteration order, whose kind is unhandled, and carries that kind |
| `RelationshipEnricher.FirstUnhandledShift` | Transformer/NgAdminWithRelationshipsTransformer.php:31-68 | a mapping that does not throw, put in front, moves the position of the first throwing mapping one place on |
| `RelationshipEnricher.ApplyMappingsFields` | Transformer/NgAdminWithRelationshipsTransformer.php:31-72 | the length is kept; each field is the original unless some mapping matched its index, when it is the last such mapping's descriptor |
| `RelationshipEnricher.EnrichWithoutMappings` | Transformer/NgAdminWithRelationshipsTransformer.php:25-29 | with no mappings the result is the input with `has_relationships = false` |
| `RelationshipEnricher.EnrichSpec` | Transformer/NgAdminWithRelationshipsTransformer.php:21-75 | fails iff a matched mapping has an unhandled kind, and then with the kind of the first such mapping in iteration order; otherwise keeps class and name, sets `has_relationships` iff there is a mapping, keeps the field count, never rewrites field 0, and each field is its original or the last matching mapping's descriptor |
| `RelationshipEnricher.UnmatchedMappingsAreSkipped` | Transformer/NgAdminWithRelationshipsTransformer.php:36-46 | mappings that match by neither name leave the fields unchanged in length and content |

## Left out

- Serializer and ORM metadata factories (`getMetadataForClass`, `getMetadataFor(...)->getAssociationMappings()`): the property list and the association mappings are inputs. A class without metadata is not modelled.
- Naming strategy (`translateName`), Doctrine Inflector (`pluralize`, `singularize`, `tableize`) and the referenced-field guesser (`guess`, `guessTargetReferenceField`): foreign code. They are uninterpreted function parameters.
- Exception classes and messages, and the constructors' dependency wiring: a failure is an `Error` value.
- PHP associative arrays: fields are a datatype, so key order in the emitted document is not modelled. The association map is a sequence of (key, mapping) pairs; PHP's key uniqueness and integer-key coercion are not modelled.
- A property whose serializer type is null (PHP would emit `type: null`) is not modelled: every property carries a type.
- A collection type without a type parameter: PHP reads an absent offset, so `referencedEntity.class` and the argument of `guess` are null, while `getEntityName(null)` explodes null as the empty string and calls `tableize("")`. The model reports `MissingTypeParameter` instead.
- An empty join-column list: PHP reads an absent offset and searches for null. No field name is null, so the model skips the mapping, which matches PHP's result apart from the notice PHP raises.
