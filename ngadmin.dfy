/** The ng-admin entity configuration document shared by both transformers,
    and the foreign collaborators they consult. */
module NgAdmin {
  import opened Wrappers

  /** `referencedEntity`: a reference to another entity by class and display name. */
  datatype EntityRef = EntityRef(cls: string, name: string)

  /** One entry of `fields`. `kind` is the document's `type` key; the two
      reference keys are present only on relational fields. */
  datatype Field = Field(
    name: string,
    kind: string,
    referencedEntity: Option<EntityRef>,
    referencedField: Option<string>)

  /** An entity configuration. `hasRelationships` is absent (None) until the
      relationship enricher has run. */
  datatype Configuration = Configuration(
    cls: string,
    name: string,
    fields: seq<Field>,
    hasRelationships: Option<bool>)

  /** The exceptions the two transformers can raise. */
  datatype Error =
    | MissingTypeParameter(typeName: string)
    | UnhandledRelationshipType(kind: int)
    | ReverseTransformUnsupported

  /** Doctrine's Inflector, foreign code: its three operations are left uninterpreted. */
  datatype Inflector = Inflector(
    pluralize: string -> string,
    singularize: string -> string,
    tableize: string -> string)

  /** The ReferencedFieldGuesser, foreign code: `guess` names the label field of
      a target class, `guessTargetReferenceField` the back-reference field on
      the many side of a one-to-many relation. */
  datatype Guesser = Guesser(
    guess: string -> string,
    guessTargetReferenceField: string -> string)

  // The field kinds the transformers emit.
  const NUMBER := "number"
  const STRING := "string"
  const TEXT := "text"
  const DATE := "date"
  const REFERENCE := "reference"
  const REFERENCE_MANY := "reference_many"
  const REFERENCED_LIST := "referenced_list"
}
