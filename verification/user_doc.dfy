/**
 * The user document as the front end reads it from the `users` collection.
 * Every field may be missing; numbers are integers.
 */
module UserDoc {
  import opened Wrappers

  /** A Firestore `Timestamp`. */
  datatype Timestamp = Timestamp(seconds: int, nanoseconds: int)

  datatype UserDoc = UserDoc(
    email: Option<string>,
    uid: Option<string>,
    careBalance: Option<int>,
    careSilver: Option<int>,
    careGold: Option<int>,
    eggStatus: Option<string>,
    eggSessionsRemaining: Option<int>,
    dragonId: Option<string>,
    dragonName: Option<string>,
    dragonLevel: Option<int>,
    dragonHunger: Option<int>,
    dragonMood: Option<int>,
    dragonHealth: Option<int>,
    createdAt: Option<Timestamp>,
    lifetimeActions: Option<int>,
    lifetimeSessions: Option<int>)
}
