/**
 * The web application's EF Core model configuration (`OnModelCreating` of
 * BeFit/Data/ApplicationDbContext.cs) as a constant catalog: the tables and the
 * columns the entities map to, the unique index on exercise-type names, and the
 * delete behaviour of each relationship.
 */
module EfModel {
  import opened Wrappers

  datatype Entity = ExerciseTypeEntity | TrainingSessionEntity | TrainingEntryEntity | UserEntity

  datatype DeleteBehavior = Cascade | Restrict

  /** Rows of `dependent` refer to a row of `principal` through the column `foreignKey`. */
  datatype Relationship = Relationship(dependent: Entity, principal: Entity, foreignKey: string, onDelete: DeleteBehavior)

  /** The four relationships configured on the model. */
  function Relationships(): seq<Relationship> {
    [ Relationship(TrainingSessionEntity, UserEntity, "UserId", Cascade),
      Relationship(TrainingEntryEntity, TrainingSessionEntity, "TrainingSessionId", Cascade),
      Relationship(TrainingEntryEntity, ExerciseTypeEntity, "ExerciseTypeId", Restrict),
      Relationship(TrainingEntryEntity, UserEntity, "UserId", Cascade) ]
  }

  function FindRule(rels: seq<Relationship>, dependent: Entity, principal: Entity): (r: Option<DeleteBehavior>)
    ensures r.None? <==> forall i :: 0 <= i < |rels| ==> !(rels[i].dependent == dependent && rels[i].principal == principal)
    ensures r.Some? ==> exists i :: 0 <= i < |rels| && rels[i] == Relationship(dependent, principal, rels[i].foreignKey, r.value)
  {
    if rels == [] then None
    else if rels[0].dependent == dependent && rels[0].principal == principal then Some(rels[0].onDelete)
    else
      var r := FindRule(rels[1..], dependent, principal);
      assert forall i :: 0 < i < |rels| ==> rels[i] == rels[1..][i - 1];
      r
  }

  /** What deleting a `principal` row does to the `dependent` rows that refer to it, if the two are related. */
  function DeleteRule(dependent: Entity, principal: Entity): (r: Option<DeleteBehavior>)
    ensures r.None? <==> forall i :: 0 <= i < |Relationships()| ==> !(Relationships()[i].dependent == dependent && Relationships()[i].principal == principal)
    ensures r.Some? ==> exists i :: 0 <= i < |Relationships()| && Relationships()[i] == Relationship(dependent, principal, Relationships()[i].foreignKey, r.value)
  {
    FindRule(Relationships(), dependent, principal)
  }

  /**
   * The configured behaviour: deleting a user or a session cascades, deleting an
   * exercise type is refused while entries refer to it, and nothing refers to an
   * entry.
   */
  lemma DeleteRules()
    ensures DeleteRule(TrainingSessionEntity, UserEntity) == Some(Cascade)
    ensures DeleteRule(TrainingEntryEntity, UserEntity) == Some(Cascade)
    ensures DeleteRule(TrainingEntryEntity, TrainingSessionEntity) == Some(Cascade)
    ensures DeleteRule(TrainingEntryEntity, ExerciseTypeEntity) == Some(Restrict)
    ensures forall d :: DeleteRule(d, TrainingEntryEntity).None?
  {
    UserDeleteRules();
    EntryDeleteRules();
    NothingDependsOnEntries();
  }

  /** Deleting a user deletes their sessions and their entries. */
  lemma UserDeleteRules()
    ensures DeleteRule(TrainingSessionEntity, UserEntity) == Some(Cascade)
    ensures DeleteRule(TrainingEntryEntity, UserEntity) == Some(Cascade)
  {
  }

  /** Deleting a session deletes its entries; deleting a used exercise type is refused. */
  lemma EntryDeleteRules()
    ensures DeleteRule(TrainingEntryEntity, TrainingSessionEntity) == Some(Cascade)
    ensures DeleteRule(TrainingEntryEntity, ExerciseTypeEntity) == Some(Restrict)
  {
  }

  /** No relationship has entries as its principal. */
  lemma NothingDependsOnEntries()
    ensures forall d :: DeleteRule(d, TrainingEntryEntity).None?
  {
  }

  /** `HasIndex(e => e.Name).IsUnique()` on exercise types is the model's only unique index. */
  predicate IsUniqueIndex(entity: Entity, property: string) {
    entity == ExerciseTypeEntity && property == "Name"
  }

  /** The table of each entity: the name of its `DbSet` property (Identity's for users). */
  function TableName(entity: Entity): string {
    match entity
    case ExerciseTypeEntity => "ExerciseTypes"
    case TrainingSessionEntity => "TrainingSessions"
    case TrainingEntryEntity => "TrainingEntries"
    case UserEntity => "AspNetUsers"
  }

  /** The scalar properties of the three domain entities (navigation properties are not columns). */
  function MappedProperties(entity: Entity): seq<string> {
    match entity
    case ExerciseTypeEntity => ["Id", "Name"]
    case TrainingSessionEntity => ["Id", "UserId", "StartedAt", "EndedAt"]
    case TrainingEntryEntity => ["Id", "TrainingSessionId", "ExerciseTypeId", "UserId", "Weight", "Sets", "Repetitions"]
    case UserEntity => ["Id"]
  }

  /** `HasColumnName`: `Weight` and `Repetitions` of an entry live in the legacy columns `WeightKg` and `Reps`. */
  function ColumnName(entity: Entity, property: string): string {
    if entity == TrainingEntryEntity && property == "Weight" then "WeightKg"
    else if entity == TrainingEntryEntity && property == "Repetitions" then "Reps"
    else property
  }

  /** The columns an entity's table has when EF creates it. */
  function Columns(entity: Entity): (cs: seq<string>)
    ensures |cs| == |MappedProperties(entity)|
    ensures forall i :: 0 <= i < |cs| ==> cs[i] == ColumnName(entity, MappedProperties(entity)[i])
  {
    var ps := MappedProperties(entity);
    seq(|ps|, i requires 0 <= i < |ps| => ColumnName(entity, ps[i]))
  }

  /** The columns of each table, written out. */
  lemma ColumnsListed(e: Entity)
    ensures Columns(e) == match e
      case ExerciseTypeEntity => ["Id", "Name"]
      case TrainingSessionEntity => ["Id", "UserId", "StartedAt", "EndedAt"]
      case TrainingEntryEntity => ["Id", "TrainingSessionId", "ExerciseTypeId", "UserId", "WeightKg", "Sets", "Reps"]
      case UserEntity => ["Id"]
  {
  }

  /** No two properties of an entity share a column. */
  lemma ColumnsDistinct(e: Entity)
    ensures forall i, j :: 0 <= i < j < |Columns(e)| ==> Columns(e)[i] != Columns(e)[j]
  {
    ColumnsListed(e);
  }

  /**
   * The entry table stores weight and repetitions under `WeightKg` and `Reps`
   * and has no column named after either property, and no two properties of
   * an entity share a column.
   */
  lemma EntryColumnMapping()
    ensures "WeightKg" in Columns(TrainingEntryEntity) && "Reps" in Columns(TrainingEntryEntity)
    ensures "Weight" !in Columns(TrainingEntryEntity) && "Repetitions" !in Columns(TrainingEntryEntity)
    ensures forall e, i, j :: 0 <= i < j < |Columns(e)| ==> Columns(e)[i] != Columns(e)[j]
  {
    ColumnsListed(TrainingEntryEntity);
    forall e: Entity ensures forall i, j :: 0 <= i < j < |Columns(e)| ==> Columns(e)[i] != Columns(e)[j] {
      ColumnsDistinct(e);
    }
  }
}
