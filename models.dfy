/**
 * The record shapes of the exercise catalog: one exercise with its name, media
 * link and tag lists, the three reference entities, and the paginated listing
 * envelope. These types carry no behaviour; field validation by the web
 * framework is not part of this model.
 */
module Models {
  datatype Exercise = Exercise(
    exerciseId: string,
    name: string,
    gifUrl: string,
    targetMuscles: seq<string>,
    bodyParts: seq<string>,
    equipments: seq<string>,
    secondaryMuscles: seq<string>,
    instructions: seq<string>)

  datatype Muscle = Muscle(name: string)

  datatype BodyPart = BodyPart(name: string)

  datatype Equipment = Equipment(name: string)

  /** The envelope of the paginated listing route. */
  datatype ExerciseResponse = ExerciseResponse(
    exercises: seq<Exercise>,
    total: nat,
    page: int,
    limit: int,
    totalPages: nat)
}
