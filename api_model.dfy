/** The API model that both entity services receive and return: an entity with
    its kind, its hierarchy references and its localised texts. */
module ApiModel {
  import opened Outcomes

  /** A text with an optional language tag. */
  datatype LocalisableText = LocalisableText(text: string, lang: Option<string>)

  datatype EntityType =
    | Category
    | SinglePhenotype
    | CompositePhenotype
    | SingleRestriction
    | CompositeRestriction

  /** The Java class of the API object: a Category carries super-categories; a
      Phenotype is a Category too and carries a super-phenotype besides; a plain
      Entity carries neither. */
  datatype Hierarchy =
    | CategoryRefs(superCategories: Option<seq<string>>)
    | PhenotypeRef(superCategories: Option<seq<string>>, superPhenotype: Option<string>)
    | PlainEntity

  datatype Entity = Entity(
    id: string,
    entityType: Option<EntityType>,
    hierarchy: Hierarchy,
    index: Option<int>,
    titles: seq<LocalisableText>,
    synonyms: seq<LocalisableText>,
    descriptions: seq<LocalisableText>)

  /** A restricted phenotype is one whose type is one of the two restriction kinds. */
  predicate IsRestricted(t: EntityType) {
    t == SingleRestriction || t == CompositeRestriction
  }

  /** The super-category ids of a Category or Phenotype, in order; empty for a
      plain entity or a null list. */
  function SuperCategoryIds(h: Hierarchy): seq<string> {
    if (h.CategoryRefs? || h.PhenotypeRef?) && h.superCategories.Some? then h.superCategories.value else []
  }

  /** The ids of the entities an entity names above it: its super-categories in
      order (the `instanceof Category` test), then its super-phenotype (the
      separate `instanceof Phenotype` test); none for a plain entity. */
  function SuperIds(entity: Entity): (r: seq<string>)
    ensures entity.hierarchy.PlainEntity? ==> r == []
    ensures entity.hierarchy.CategoryRefs? ==> r == SuperCategoryIds(entity.hierarchy)
    ensures entity.hierarchy.PhenotypeRef? ==>
      && |r| == |SuperCategoryIds(entity.hierarchy)| + (if entity.hierarchy.superPhenotype.Some? then 1 else 0)
      && r[..|SuperCategoryIds(entity.hierarchy)|] == SuperCategoryIds(entity.hierarchy)
      && (entity.hierarchy.superPhenotype.Some? ==> r[|r| - 1] == entity.hierarchy.superPhenotype.value)
  {
    var h := entity.hierarchy;
    match h
    case PlainEntity => []
    case CategoryRefs(_) => SuperCategoryIds(h)
    case PhenotypeRef(_, None) => SuperCategoryIds(h)
    case PhenotypeRef(_, Some(p)) => SuperCategoryIds(h) + [p]
  }
}
