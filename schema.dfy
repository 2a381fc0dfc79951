/** The request validation rules and column defaults of shared/schema.ts. */
module Schema {
  import opened Wrappers
  import opened DraftBoardTypes

  /** Column defaults of the players table. */
  const DefaultGrade: int := 75
  const DefaultTier: int := 3
  const DefaultNotes: string := ""

  /** What the store's `createPlayer` receives: a player without its id. */
  datatype InsertPlayer = InsertPlayer(
    name: string,
    position: string,
    school: string,
    grade: int,
    tier: int,
    notes: Option<string>,
    order: int)

  /** A partial update: an absent field is left as it is. Id and order have no place in it. */
  datatype PlayerUpdate = PlayerUpdate(
    name: Option<string>,
    position: Option<string>,
    school: Option<string>,
    grade: Option<int>,
    tier: Option<int>,
    notes: Option<string>)

  /** A request body after JSON decoding: every key may be missing. */
  datatype PlayerBody = PlayerBody(
    id: Option<int>,
    name: Option<string>,
    position: Option<string>,
    school: Option<string>,
    grade: Option<int>,
    tier: Option<int>,
    notes: Option<string>,
    order: Option<int>)

  datatype FieldName = NameField | PositionField | SchoolField | GradeField | TierField | NotesField | OrderField

  /** A schema violation: a missing required key, or a value below or above its bound. */
  datatype Issue = Required(field: FieldName) | TooSmall(field: FieldName) | TooBig(field: FieldName)

  /** `z.string().min(1)`. */
  predicate ValidName(s: string) { |s| >= 1 }

  /** `z.number().min(0).max(100)`. */
  predicate ValidGrade(g: int) { 0 <= g <= 100 }

  /** `z.number().min(1).max(5)`. */
  predicate ValidTier(t: int) { 1 <= t <= 5 }

  function TextIssues(f: FieldName, v: string, nonEmpty: bool): seq<Issue>
  {
    if nonEmpty && |v| < 1 then [TooSmall(f)] else []
  }

  function RangeIssues(f: FieldName, v: int, lo: int, hi: int): seq<Issue>
  {
    if v < lo then [TooSmall(f)] else if v > hi then [TooBig(f)] else []
  }

  function RequiredText(f: FieldName, v: Option<string>, nonEmpty: bool): seq<Issue>
  {
    if v.None? then [Required(f)] else TextIssues(f, v.value, nonEmpty)
  }

  function RequiredRange(f: FieldName, v: Option<int>, lo: int, hi: int): seq<Issue>
  {
    if v.None? then [Required(f)] else RangeIssues(f, v.value, lo, hi)
  }

  function OptionalText(f: FieldName, v: Option<string>, nonEmpty: bool): seq<Issue>
  {
    if v.None? then [] else TextIssues(f, v.value, nonEmpty)
  }

  function OptionalRange(f: FieldName, v: Option<int>, lo: int, hi: int): seq<Issue>
  {
    if v.None? then [] else RangeIssues(f, v.value, lo, hi)
  }

  /** All issues `playerSchema.omit({ id: true })` reports for a create body,
      in the order of the schema's keys. The id key, if any, is dropped. */
  function NewPlayerIssues(b: PlayerBody): seq<Issue>
  {
    RequiredText(NameField, b.name, true)
    + RequiredText(PositionField, b.position, true)
    + RequiredText(SchoolField, b.school, false)
    + RequiredRange(GradeField, b.grade, 0, 100)
    + RequiredRange(TierField, b.tier, 1, 5)
    + (if b.order.None? then [Required(OrderField)] else [])
  }

  /** Validates a create body. It is accepted exactly when name and position
      are non-empty strings, school is present, grade lies in 0..100, tier in
      1..5 and some order is given, whatever its value. Notes may be left
      out, and then the accepted record has none: the schema gives them no
      default (the column default "" belongs to the database table). */
  function ParseNewPlayer(b: PlayerBody): (r: Result<InsertPlayer, seq<Issue>>)
    ensures r.Success? <==>
      && b.name.Some? && ValidName(b.name.value)
      && b.position.Some? && ValidName(b.position.value)
      && b.school.Some?
      && b.grade.Some? && ValidGrade(b.grade.value)
      && b.tier.Some? && ValidTier(b.tier.value)
      && b.order.Some?
    ensures r.Success? ==>
      && r.value.name == b.name.value && r.value.position == b.position.value
      && r.value.school == b.school.value && r.value.grade == b.grade.value
      && r.value.tier == b.tier.value && r.value.notes == b.notes
      && r.value.order == b.order.value
    ensures r.Failure? ==> |r.error| > 0
    ensures r.Failure? ==> (Required(GradeField) in r.error <==> b.grade.None?)
  {
    var issues := NewPlayerIssues(b);
    if issues == [] then
      Success(InsertPlayer(b.name.value, b.position.value, b.school.value, b.grade.value,
                           b.tier.value, b.notes, b.order.value))
    else Failure(issues)
  }

  /** All issues `updatePlayerSchema` reports: every key is optional, but a
      key that is present must meet the bound of `playerSchema`. */
  function UpdateIssues(b: PlayerBody): seq<Issue>
  {
    OptionalText(NameField, b.name, true)
    + OptionalText(PositionField, b.position, true)
    + OptionalRange(GradeField, b.grade, 0, 100)
    + OptionalRange(TierField, b.tier, 1, 5)
  }

  /** Validates an update body. Only name, position, school, grade, tier and
      notes are picked; an id or order key in the body is stripped, so it can
      never reach the stored player. */
  function ParseUpdate(b: PlayerBody): (r: Result<PlayerUpdate, seq<Issue>>)
    ensures r.Success? <==>
      && (b.name.Some? ==> ValidName(b.name.value))
      && (b.position.Some? ==> ValidName(b.position.value))
      && (b.grade.Some? ==> ValidGrade(b.grade.value))
      && (b.tier.Some? ==> ValidTier(b.tier.value))
    ensures r.Success? ==> r.value == PlayerUpdate(b.name, b.position, b.school, b.grade, b.tier, b.notes)
    ensures r.Failure? ==> |r.error| > 0
  {
    var issues := UpdateIssues(b);
    if issues == [] then Success(PlayerUpdate(b.name, b.position, b.school, b.grade, b.tier, b.notes))
    else Failure(issues)
  }

  /** Two bodies that differ only in their id and order keys are parsed to the same update. */
  lemma UpdateIgnoresIdAndOrder(b: PlayerBody, id: Option<int>, order: Option<int>)
    ensures ParseUpdate(b.(id := id, order := order)) == ParseUpdate(b)
  {
  }

  /** The column defaults lie inside the schema's bounds, and the add-player
      form starts from exactly these defaults, with every text field empty. */
  lemma DefaultsWithinBounds()
    ensures ValidGrade(DefaultGrade) && ValidTier(DefaultTier)
    ensures DefaultPlayer == PlayerFormData("", "", "", DefaultGrade, DefaultTier, DefaultNotes)
  {
  }
}
