/** The persisted user record (Models/User.cs). */
module Users {

  /** The textual form of a MongoDB `ObjectId`, as `Id.ToString()` yields it. */
  type ObjectId = string

  /** A `DateTime` in UTC, as ticks. */
  type Timestamp = int

  /** `ObjectId.Empty`: the id of a `User` the store has not assigned yet. */
  const EmptyObjectId: ObjectId := "000000000000000000000000"

  datatype User = User(id: ObjectId, userName: string, email: string, passwordHash: string, createdAt: Timestamp)
}
