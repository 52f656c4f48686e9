/** The decision engine behind the message API: for each mutation it runs
    its checks in a fixed order against the injected repository and answers
    with exactly one `Result` variant. */
module Logic {
  import opened Models
  import opened Validation
  import opened Repositories

  const NotFoundMessage := "Message not found."
  const ConflictMessage := "A message with the same title already exists."
  const UpdateInactiveMessage := "Cannot update inactive message."
  const DeleteInactiveMessage := "Cannot delete inactive message."

  class MessageLogic {
    const repository: MessageStore

    constructor (repository: MessageStore)
      ensures this.repository == repository
    {
      this.repository := repository;
    }

    /** Validates both fields, then refuses a title its organization already
        uses, and only then stores a new active message. Every refusal leaves
        the store as it was. */
    method CreateMessage(organizationId: Guid, request: CreateMessageRequest, now: Timestamp)
      returns (r: Result)
      requires repository.Valid()
      modifies repository
      ensures repository.Valid()
      ensures r.Created? || r.Conflict? || r.ValidationError?
      // Both field rules are checked and reported together.
      ensures r.ValidationError? <==> TitleInvalid(request.title) || ContentInvalid(request.content)
      ensures r.ValidationError? ==> ReportsFieldErrors(r.errors, request.title, request.content)
      // A valid request whose title the organization already uses is a conflict.
      ensures r.Conflict? <==>
        && !TitleInvalid(request.title) && !ContentInvalid(request.content)
        && TitleTaken(old(repository.messages), organizationId, request.title)
      ensures r.Conflict? ==> r.message == ConflictMessage
      ensures !r.Created? ==> repository.messages == old(repository.messages)
      // On success the stored message is exactly the request, active, under a new id.
      ensures r.Created? ==>
        && r.value == Message(r.value.id, organizationId, request.title, request.content, true, now, None)
        && IdUnused(old(repository.messages), r.value.id)
        && repository.messages == old(repository.messages)[(organizationId, r.value.id) := r.value]
      ensures TitlesUnique(old(repository.messages)) ==> TitlesUnique(repository.messages)
    {
      var errors := CollectFieldErrors(request.title, request.content);
      if |errors| > 0 {
        return ValidationError(errors);
      }

      var existing := repository.GetByTitle(organizationId, request.title);
      if existing.Some? {
        return Conflict(ConflictMessage);
      }

      var message := Message(EmptyGuid, organizationId, request.title, request.content, true, now, None);
      var created := repository.Create(message);
      return Created(created);
    }

    /** Finds the target, refuses an inactive one before looking at the
        request, validates both fields, refuses a title held by a different
        message of the organization, and then overwrites title, content,
        active flag and update time. Every refusal leaves the store as it was. */
    method UpdateMessage(organizationId: Guid, id: Guid, request: UpdateMessageRequest, now: Timestamp)
      returns (r: Result)
      requires repository.Valid()
      modifies repository
      ensures repository.Valid()
      ensures r.Updated? || r.NotFound? || r.Conflict? || r.ValidationError?
      ensures (organizationId, id) !in old(repository.messages) ==> r == NotFound(NotFoundMessage)
      // An inactive target is refused even when the request itself is valid.
      ensures (organizationId, id) in old(repository.messages)
              && !old(repository.messages)[(organizationId, id)].isActive ==>
        r == ValidationError(map[IsActiveField := [UpdateInactiveMessage]])
      ensures (organizationId, id) in old(repository.messages)
              && old(repository.messages)[(organizationId, id)].isActive
              && (TitleInvalid(request.title) || ContentInvalid(request.content)) ==>
        r.ValidationError? && ReportsFieldErrors(r.errors, request.title, request.content)
      // A conflict needs another message of the organization with the requested title ...
      ensures r.Conflict? ==>
        && r.message == ConflictMessage
        && (organizationId, id) in old(repository.messages)
        && old(repository.messages)[(organizationId, id)].isActive
        && !TitleInvalid(request.title) && !ContentInvalid(request.content)
        && TitleHeldByOther(old(repository.messages), organizationId, request.title, id)
      // ... and, while titles are unique, such a message always is one.
      ensures TitlesUnique(old(repository.messages))
              && (organizationId, id) in old(repository.messages)
              && old(repository.messages)[(organizationId, id)].isActive
              && !TitleInvalid(request.title) && !ContentInvalid(request.content)
              && TitleHeldByOther(old(repository.messages), organizationId, request.title, id) ==>
        r.Conflict?
      // Keeping one's own title is not a conflict.
      ensures (organizationId, id) in old(repository.messages)
              && old(repository.messages)[(organizationId, id)].isActive
              && !TitleInvalid(request.title) && !ContentInvalid(request.content)
              && !TitleHeldByOther(old(repository.messages), organizationId, request.title, id) ==>
        r == Updated
      // A title held by another message and not by the target itself is
      // always a conflict, unique titles or not.
      ensures (organizationId, id) in old(repository.messages)
              && old(repository.messages)[(organizationId, id)].isActive
              && old(repository.messages)[(organizationId, id)].title != request.title
              && !TitleInvalid(request.title) && !ContentInvalid(request.content)
              && TitleHeldByOther(old(repository.messages), organizationId, request.title, id) ==>
        r.Conflict?
      // Whichever match the title lookup returns, a found, active target with
      // valid fields ends in Conflict or Updated.
      ensures (organizationId, id) in old(repository.messages)
              && old(repository.messages)[(organizationId, id)].isActive
              && !TitleInvalid(request.title) && !ContentInvalid(request.content) ==>
        r.Conflict? || r == Updated
      ensures r.NotFound? ==> (organizationId, id) !in old(repository.messages)
      ensures r.ValidationError? ==>
        && (organizationId, id) in old(repository.messages)
        && (|| !old(repository.messages)[(organizationId, id)].isActive
            || TitleInvalid(request.title) || ContentInvalid(request.content))
      // Only title, content, active flag and update time of the target change.
      ensures r == Updated ==>
        var key := (organizationId, id);
        var before := old(repository.messages)[key];
        && key in old(repository.messages)
        && repository.messages == old(repository.messages)[key := before.(
             title := request.title, content := request.content,
             isActive := request.isActive, updatedAt := Some(now))]
      ensures r != Updated ==> repository.messages == old(repository.messages)
      ensures TitlesUnique(old(repository.messages)) ==> TitlesUnique(repository.messages)
    {
      var found := repository.GetById(organizationId, id);
      if found.None? {
        return NotFound(NotFoundMessage);
      }
      var message := found.value;

      if !message.isActive {
        return ValidationError(map[IsActiveField := [UpdateInactiveMessage]]);
      }

      var errors := CollectFieldErrors(request.title, request.content);
      if |errors| > 0 {
        return ValidationError(errors);
      }

      var existing := repository.GetByTitle(organizationId, request.title);
      if existing.Some? && existing.value.id != id {
        return Conflict(ConflictMessage);
      }

      message := message.(title := request.title, content := request.content,
                          isActive := request.isActive, updatedAt := Some(now));
      var updated := repository.Update(message);
      r := if updated.Some? then Updated else NotFound(NotFoundMessage);
    }

    /** Finds the target, refuses an inactive one, and otherwise asks the
        repository to delete it. */
    method DeleteMessage(organizationId: Guid, id: Guid) returns (r: Result)
      requires repository.Valid()
      modifies repository
      ensures repository.Valid()
      ensures r.Deleted? || r.NotFound? || r.ValidationError?
      ensures (organizationId, id) !in old(repository.messages) ==> r == NotFound(NotFoundMessage)
      ensures (organizationId, id) in old(repository.messages)
              && !old(repository.messages)[(organizationId, id)].isActive ==>
        r == ValidationError(map[IsActiveField := [DeleteInactiveMessage]])
      ensures (organizationId, id) in old(repository.messages)
              && old(repository.messages)[(organizationId, id)].isActive ==>
        r == Deleted && repository.messages == old(repository.messages) - {(organizationId, id)}
      ensures r != Deleted ==> repository.messages == old(repository.messages)
      ensures TitlesUnique(old(repository.messages)) ==> TitlesUnique(repository.messages)
    {
      var message := repository.GetById(organizationId, id);
      if message.None? {
        return NotFound(NotFoundMessage);
      }

      if !message.value.isActive {
        return ValidationError(map[IsActiveField := [DeleteInactiveMessage]]);
      }

      var deleted := repository.Delete(organizationId, id);
      r := if deleted then Deleted else NotFound(NotFoundMessage);
    }

    /** Pass-through read: the stored message, or none; no validation. */
    method GetMessage(organizationId: Guid, id: Guid) returns (r: Option<Message>)
      ensures r.Some? <==> (organizationId, id) in repository.messages
      ensures r.Some? ==> r.value == repository.messages[(organizationId, id)]
    {
      r := repository.GetById(organizationId, id);
    }

    /** Pass-through read: every message of the organization, once each. */
    method GetAllMessages(organizationId: Guid) returns (all: seq<Message>)
      requires repository.Valid()
      ensures forall m :: m in all ==> var key := (organizationId, m.id);
                                       key in repository.messages && repository.messages[key] == m
      ensures forall k :: k in repository.messages && k.0 == organizationId ==>
                          repository.messages[k] in all
      ensures forall i, j :: 0 <= i < j < |all| ==> all[i].id != all[j].id
    {
      all := repository.GetAllByOrganization(organizationId);
    }
  }
}
