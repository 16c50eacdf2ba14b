/** The records the submission pipeline passes around (types.ts). */
module Types {

  /** A value that may be absent (`null` or `undefined` in the source). */
  datatype Option<T> = None | Some(value: T)

  /** The attendance event kind; the server knows check-in as 1 and check-out as 2. */
  datatype CheckType = In | Out {
    function Code(): (c: int)
      ensures c == 1 || c == 2
      ensures c == 1 <==> this == In
    {
      if In? then 1 else 2
    }
  }

  /** What is sent for one attendance event. */
  datatype AttendancePayload = AttendancePayload(
    userID: string,
    typeCheckInOut: CheckType,
    dateCheckInOut: string)

  /** One history entry: the payload plus an opaque id and a creation instant. */
  datatype LogEntry = LogEntry(
    payload: AttendancePayload,
    id: string,
    timestamp: int)
}
