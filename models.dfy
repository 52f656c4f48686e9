/** The value types the message API passes around: identifiers, the stored
    message record, the two request bodies and the closed set of outcomes the
    logic layer hands to the transport layer. */
module Models {

  /** Guids are opaque identifiers; they are modelled as natural numbers and
      the empty Guid (the default of an unassigned id) as 0. */
  type Guid = nat
  const EmptyGuid: Guid := 0

  /** An opaque point in time (the clock is an input of the model). */
  type Timestamp = int

  datatype Option<+T> = None | Some(value: T)

  /** A stored message. `updatedAt` is unset until the first successful update. */
  datatype Message = Message(
    id: Guid,
    organizationId: Guid,
    title: string,
    content: string,
    isActive: bool,
    createdAt: Timestamp,
    updatedAt: Option<Timestamp>)

  datatype CreateMessageRequest = CreateMessageRequest(title: string, content: string)

  datatype UpdateMessageRequest = UpdateMessageRequest(title: string, content: string, isActive: bool)

  /** Field name to the messages of the rules that field violates. */
  type ErrorMap = map<string, seq<string>>

  /** Exactly one of these is the answer to every mutation. */
  datatype Result =
    | Created(value: Message)
    | Updated
    | Deleted
    | NotFound(message: string)
    | Conflict(message: string)
    | ValidationError(errors: ErrorMap)
}
