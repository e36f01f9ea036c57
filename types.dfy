/** The two records of src/types.ts. Numbers are exact reals: the model does
    not reproduce IEEE-754 rounding of protein sums. */
module Types {

  /** One logged food: `id` is the creation time rendered as a string,
      `timestamp` the creation time in milliseconds. */
  datatype FoodEntry = FoodEntry(id: string, name: string, protein: real, timestamp: int)

  /** The persisted application state: `dailyGoal == 0` means setup has not
      been completed; `entries` are newest first. */
  datatype AppState = AppState(dailyGoal: real, entries: seq<FoodEntry>)
}
