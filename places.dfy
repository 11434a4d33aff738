/**
  Values shared by the place store and the two screens: the place record, its
  coordinates, and the result codes an Android activity hands back to its caller.
 */
module Places {

  datatype Option<T> = None | Some(value: T)

  /** A latitude or longitude, as an opaque 64-bit value. The app only stores, returns
      and compares coordinates, so the model gives them no arithmetic. */
  datatype Coord = Coord(bits: bv64)

  /** The id a place carries before the store has assigned one. SQLite's
      AUTOINCREMENT never hands out an id below 1, so no stored row has it. */
  const UnassignedId: int := 0

  /** A favourite place: a store-assigned id, a label and a coordinate pair. */
  datatype Place = Place(id: int, name: string, latitude: Coord, longitude: Coord)

  /** The three-argument constructor used for a place that is about to be saved. */
  function NewPlace(name: string, latitude: Coord, longitude: Coord): Place
  {
    Place(UnassignedId, name, latitude, longitude)
  }
}

/** The result codes of `android.app.Activity`. */
module ActivityResult {

  /** `Activity.RESULT_OK`. */
  const ResultOk: int := -1

  /** `Activity.RESULT_CANCELED`, the result of an activity that never calls `setResult`. */
  const ResultCanceled: int := 0
}
