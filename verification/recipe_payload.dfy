/** Validation of the recipe payload accepted on create (POST), full update
    (PUT) and partial update (PATCH). The field checks that always run come
    first: the tag and ingredient ids must exist, amounts must be in range,
    the image must not be the empty string, and the cooking time must be in
    range. Then the list checks run: tags and ingredients must be non-empty
    and free of duplicates. The framework collects every failing field. Only
    when no field fails does the object-level check run: a PATCH must carry
    both `tags` and `ingredients`. */
module RecipePayload {
  import opened Common
  import opened Schema
  import Images

  /** One submitted ingredient: `{"id": ..., "amount": ...}`. */
  datatype Entry = Entry(id: IngredientId, amount: int)

  /** The submitted fields; `None` where the key is missing. */
  datatype Payload = Payload(
    tags: Option<seq<TagId>>,
    ingredients: Option<seq<Entry>>,
    name: Option<string>,
    text: Option<string>,
    image: Option<string>,
    cookingTime: Option<int>
  )

  /** POST and PUT validate every field as required; PATCH is partial. */
  datatype Mode = CreateMode | ReplaceMode | PartialMode

  datatype Field = TagsField | IngredientsField | NameField | TextField | ImageField | CookingTimeField

  datatype Problem =
    | Required                      // a required key is missing (POST, PUT)
    | UnknownTag                    // a tag id with no stored tag
    | EmptyTags
    | DuplicateTags
    | InvalidEntries(bad: set<nat>) // positions of entries with an unknown id or an amount out of range
    | EmptyIngredients
    | DuplicateIngredients
    | NoImage                       // the image is the empty string
    | CookingTimeOutOfRange
    | MissingTags                   // PATCH without `tags`
    | MissingIngredients            // PATCH without `ingredients`

  datatype Rejection = FieldErrors(errors: map<Field, Problem>) | NonFieldError(problem: Problem)

  /** Accepted data: tags and ingredients are always present. */
  datatype Validated = Validated(
    tags: seq<TagId>,
    ingredients: seq<Entry>,
    name: Option<string>,
    text: Option<string>,
    image: Option<string>,
    cookingTime: Option<int>
  )

  function Ids(entries: seq<Entry>): (ids: seq<IngredientId>)
    ensures |ids| == |entries|
    ensures forall i :: 0 <= i < |entries| ==> ids[i] == entries[i].id
  {
    if entries == [] then [] else [entries[0].id] + Ids(entries[1..])
  }

  predicate EntryOk(cfg: Config, db: Database, e: Entry) {
    e.id in db.ingredients && cfg.AmountInRange(e.amount)
  }

  // ---------------------------------------------------------------------
  // Field checks: None when the field passes (or is absent under PATCH)
  // ---------------------------------------------------------------------

  /** `PrimaryKeyRelatedField(many=True)` stops at the first unknown id, then `validate_tags`. */
  function CheckTags(db: Database, mode: Mode, tags: Option<seq<TagId>>): Option<Problem> {
    match tags
    case None => if mode == PartialMode then None else Some(Required)
    case Some(ts) =>
      if exists i :: 0 <= i < |ts| && ts[i] !in db.tags then Some(UnknownTag)
      else if ts == [] then Some(EmptyTags)
      else if |ts| != |Elems(ts)| then Some(DuplicateTags)
      else None
  }

  /** The nested entry serializers, then `validate_ingredients`. */
  function CheckIngredients(cfg: Config, db: Database, mode: Mode, ingredients: Option<seq<Entry>>): Option<Problem> {
    match ingredients
    case None => if mode == PartialMode then None else Some(Required)
    case Some(es) =>
      var bad := set i | 0 <= i < |es| && !EntryOk(cfg, db, es[i]);
      if bad != {} then Some(InvalidEntries(bad))
      else if es == [] then Some(EmptyIngredients)
      else if |Ids(es)| != |Elems(Ids(es))| then Some(DuplicateIngredients)
      else None
  }

  function CheckPresent<T>(mode: Mode, v: Option<T>): Option<Problem> {
    if v.None? && mode != PartialMode then Some(Required) else None
  }

  /** `ImageField.to_internal_value`: the empty string is refused. */
  function CheckImage(mode: Mode, image: Option<string>): Option<Problem> {
    match image
    case None => if mode == PartialMode then None else Some(Required)
    case Some(s) => if Images.RecipeImage(Images.Str(s)).Err? then Some(NoImage) else None
  }

  function CheckCookingTime(cfg: Config, mode: Mode, t: Option<int>): Option<Problem> {
    match t
    case None => if mode == PartialMode then None else Some(Required)
    case Some(v) => if cfg.CookingTimeInRange(v) then None else Some(CookingTimeOutOfRange)
  }

  /** The outcome of one field's validation. */
  function CheckField(cfg: Config, db: Database, mode: Mode, p: Payload, f: Field): Option<Problem> {
    match f
    case TagsField => CheckTags(db, mode, p.tags)
    case IngredientsField => CheckIngredients(cfg, db, mode, p.ingredients)
    case NameField => CheckPresent(mode, p.name)
    case TextField => CheckPresent(mode, p.text)
    case ImageField => CheckImage(mode, p.image)
    case CookingTimeField => CheckCookingTime(cfg, mode, p.cookingTime)
  }

  /** Every field is validated and every failure is reported, not just the first. */
  function FieldProblems(cfg: Config, db: Database, mode: Mode, p: Payload): (m: map<Field, Problem>)
    ensures forall f :: f in m <==> CheckField(cfg, db, mode, p, f).Some?
    ensures forall f :: f in m ==> m[f] == CheckField(cfg, db, mode, p, f).value
  {
    var all := {TagsField, IngredientsField, NameField, TextField, ImageField, CookingTimeField};
    assert forall f: Field :: f in all by {
      forall f: Field ensures f in all {
        assert f.TagsField? || f.IngredientsField? || f.NameField? || f.TextField? || f.ImageField? || f.CookingTimeField?;
      }
    }
    map f | f in all && CheckField(cfg, db, mode, p, f).Some? :: CheckField(cfg, db, mode, p, f).value
  }

  /** `CreateRecipeSerializer.is_valid` on a payload. */
  function Validate(cfg: Config, db: Database, mode: Mode, p: Payload): (r: Result<Validated, Rejection>)
    ensures r.Ok? ==> Acceptable(cfg, db, mode, p)
    ensures Acceptable(cfg, db, mode, p) ==> r.Ok?
    ensures r.Ok? ==> r.value == Validated(p.tags.value, p.ingredients.value, p.name, p.text, p.image, p.cookingTime)
  {
    AcceptableIsAccepted(cfg, db, mode, p);
    var problems := FieldProblems(cfg, db, mode, p);
    if problems != map[] then Err(FieldErrors(problems))
    else if mode == PartialMode && p.tags.None? then Err(NonFieldError(MissingTags))
    else if mode == PartialMode && p.ingredients.None? then Err(NonFieldError(MissingIngredients))
    else
      AcceptedIsAcceptable(cfg, db, mode, p);
      Ok(Validated(p.tags.value, p.ingredients.value, p.name, p.text, p.image, p.cookingTime))
  }

  // ---------------------------------------------------------------------
  // What an accepted payload looks like, stated independently
  // ---------------------------------------------------------------------

  ghost predicate TagsOk(db: Database, ts: seq<TagId>) {
    && |ts| >= 1
    && NoDup(ts)
    && (forall i :: 0 <= i < |ts| ==> ts[i] in db.tags)
  }

  ghost predicate IngredientsOk(cfg: Config, db: Database, es: seq<Entry>) {
    && |es| >= 1
    && (forall i, j :: 0 <= i < j < |es| ==> es[i].id != es[j].id)
    && (forall i :: 0 <= i < |es| ==> es[i].id in db.ingredients && cfg.AmountInRange(es[i].amount))
  }

  /** Both lists present, non-empty and duplicate-free over stored ids, amounts
      and cooking time in range, no empty image, every key present unless PATCH. */
  ghost predicate Acceptable(cfg: Config, db: Database, mode: Mode, p: Payload) {
    && p.tags.Some? && TagsOk(db, p.tags.value)
    && p.ingredients.Some? && IngredientsOk(cfg, db, p.ingredients.value)
    && (p.image.Some? ==> p.image.value != "")
    && (p.cookingTime.Some? ==> cfg.CookingTimeInRange(p.cookingTime.value))
    && (mode != PartialMode ==> p.name.Some? && p.text.Some? && p.image.Some? && p.cookingTime.Some?)
  }

  /** `validate_ingredients`'s duplicate test, `len(ingredient_ids) != len(set(ingredient_ids))`, is pairwise distinctness of the entries' ids. */
  lemma IdsDistinct(es: seq<Entry>)
    ensures |Ids(es)| == |Elems(Ids(es))| <==> (forall i, j :: 0 <= i < j < |es| ==> es[i].id != es[j].id)
  {
    CardElemsIffNoDup(Ids(es));
  }

  lemma AcceptedIsAcceptable(cfg: Config, db: Database, mode: Mode, p: Payload)
    requires FieldProblems(cfg, db, mode, p) == map[]
    requires mode == PartialMode ==> p.tags.Some? && p.ingredients.Some?
    ensures Acceptable(cfg, db, mode, p)
  {
    var problems := FieldProblems(cfg, db, mode, p);
    assert TagsField !in problems && IngredientsField !in problems;
    var ts := p.tags.value;
    CardElemsIffNoDup(ts);
    var es := p.ingredients.value;
    IdsDistinct(es);
    forall i | 0 <= i < |es| ensures EntryOk(cfg, db, es[i]) {
      var bad := set i | 0 <= i < |es| && !EntryOk(cfg, db, es[i]);
      assert bad == {};
      assert i !in bad;
    }
    assert ImageField !in problems && CookingTimeField !in problems;
    assert NameField !in problems && TextField !in problems;
  }

  lemma AcceptableIsAccepted(cfg: Config, db: Database, mode: Mode, p: Payload)
    ensures Acceptable(cfg, db, mode, p) ==> FieldProblems(cfg, db, mode, p) == map[]
  {
    if !Acceptable(cfg, db, mode, p) {
      return;
    }
    var ts := p.tags.value;
    CardElemsIffNoDup(ts);
    var es := p.ingredients.value;
    IdsDistinct(es);
    var bad := set i | 0 <= i < |es| && !EntryOk(cfg, db, es[i]);
    assert bad == {};
    assert CheckTags(db, mode, p.tags).None?;
    assert CheckIngredients(cfg, db, mode, p.ingredients).None?;
  }

  // ---------------------------------------------------------------------
  // The individual rejections
  // ---------------------------------------------------------------------

  /** `r` is a field-level rejection reporting `problem` on field `f`. */
  predicate FailsOn(r: Result<Validated, Rejection>, f: Field, problem: Problem) {
    r.Err? && r.error.FieldErrors? && f in r.error.errors && r.error.errors[f] == problem
  }

  /** An empty ingredient list is a field error on `ingredients`. */
  lemma EmptyIngredientsRejected(cfg: Config, db: Database, mode: Mode, p: Payload)
    requires p.ingredients == Some([])
    ensures FailsOn(Validate(cfg, db, mode, p), IngredientsField, EmptyIngredients)
  {
    assert CheckField(cfg, db, mode, p, IngredientsField) == Some(EmptyIngredients);
  }

  /** Two well-formed entries with the same id make a field error on `ingredients`. */
  lemma DuplicateIngredientsRejected(cfg: Config, db: Database, mode: Mode, p: Payload, i: nat, j: nat)
    requires p.ingredients.Some?
    requires i < j < |p.ingredients.value|
    requires p.ingredients.value[i].id == p.ingredients.value[j].id
    requires forall k :: 0 <= k < |p.ingredients.value| ==> EntryOk(cfg, db, p.ingredients.value[k])
    ensures FailsOn(Validate(cfg, db, mode, p), IngredientsField, DuplicateIngredients)
  {
    var es := p.ingredients.value;
    IdsDistinct(es);
    var bad := set k | 0 <= k < |es| && !EntryOk(cfg, db, es[k]);
    assert bad == {};
    assert CheckField(cfg, db, mode, p, IngredientsField) == Some(DuplicateIngredients);
  }

  /** An amount outside [min, max] makes a field error listing exactly the bad positions, its own among them. */
  lemma AmountOutOfRangeRejected(cfg: Config, db: Database, mode: Mode, p: Payload, i: nat)
    requires p.ingredients.Some? && i < |p.ingredients.value|
    requires !cfg.AmountInRange(p.ingredients.value[i].amount)
    ensures FailsOn(Validate(cfg, db, mode, p), IngredientsField,
                    InvalidEntries(set k | 0 <= k < |p.ingredients.value| && !EntryOk(cfg, db, p.ingredients.value[k])))
    ensures i in Validate(cfg, db, mode, p).error.errors[IngredientsField].bad
  {
    var es := p.ingredients.value;
    var bad := set k | 0 <= k < |es| && !EntryOk(cfg, db, es[k]);
    assert i in bad;
    assert CheckField(cfg, db, mode, p, IngredientsField) == Some(InvalidEntries(bad));
  }

  /** An empty tag list is a field error on `tags`. */
  lemma EmptyTagsRejected(cfg: Config, db: Database, mode: Mode, p: Payload)
    requires p.tags == Some([])
    ensures FailsOn(Validate(cfg, db, mode, p), TagsField, EmptyTags)
  {
    assert CheckField(cfg, db, mode, p, TagsField) == Some(EmptyTags);
  }

  /** A repeated stored tag is a field error on `tags`. */
  lemma DuplicateTagsRejected(cfg: Config, db: Database, mode: Mode, p: Payload, i: nat, j: nat)
    requires p.tags.Some?
    requires i < j < |p.tags.value| && p.tags.value[i] == p.tags.value[j]
    requires forall k :: 0 <= k < |p.tags.value| ==> p.tags.value[k] in db.tags
    ensures FailsOn(Validate(cfg, db, mode, p), TagsField, DuplicateTags)
  {
    CardElemsIffNoDup(p.tags.value);
    assert CheckField(cfg, db, mode, p, TagsField) == Some(DuplicateTags);
  }

  /** An empty-string image is a field error on `image`. */
  lemma EmptyImageRejected(cfg: Config, db: Database, mode: Mode, p: Payload)
    requires p.image == Some("")
    ensures FailsOn(Validate(cfg, db, mode, p), ImageField, NoImage)
  {
    assert CheckField(cfg, db, mode, p, ImageField) == Some(NoImage);
  }

  /** A PATCH whose fields all pass but that lacks `tags` (or, having tags,
      lacks `ingredients`) fails the object-level check. */
  lemma PatchNeedsTagsAndIngredients(cfg: Config, db: Database, p: Payload)
    requires FieldProblems(cfg, db, PartialMode, p) == map[]
    ensures p.tags.None? ==> Validate(cfg, db, PartialMode, p) == Err(NonFieldError(MissingTags))
    ensures p.tags.Some? && p.ingredients.None? ==>
      Validate(cfg, db, PartialMode, p) == Err(NonFieldError(MissingIngredients))
  {
  }

  /** POST and PUT require every key; a missing one is a `Required` field error. */
  lemma FullModesRequireTags(cfg: Config, db: Database, mode: Mode, p: Payload)
    requires mode != PartialMode && p.tags.None?
    ensures FailsOn(Validate(cfg, db, mode, p), TagsField, Required)
  {
    assert CheckField(cfg, db, mode, p, TagsField) == Some(Required);
  }
}
