/** Call sequences of the logic, verified over a fresh, empty store: what a
    caller can conclude from the contracts of `MessageLogic` alone, for any valid input. */
module Scenarios {
  import opened Models
  import opened Validation
  import opened Repositories
  import opened Logic

  /** Titles are unique per organization: the same title is refused a second
      time in one organization and accepted in another. */
  method TitleUniquePerOrganization(org: Guid, otherOrg: Guid, title: string, content: string, otherContent: string)
    returns (first: Result, second: Result, third: Result)
    requires org != otherOrg
    requires !TitleInvalid(title) && !ContentInvalid(content) && !ContentInvalid(otherContent)
    ensures first.Created? && first.value.isActive && first.value.title == title
    ensures second == Conflict(ConflictMessage)
    ensures third.Created? && third.value.organizationId == otherOrg && third.value.title == title
  {
    var store := new MessageStore();
    var logic := new MessageLogic(store);
    first := logic.CreateMessage(org, CreateMessageRequest(title, content), 100);
    assert store.messages[(org, first.value.id)].title == title;
    second := logic.CreateMessage(org, CreateMessageRequest(title, otherContent), 101);
    third := logic.CreateMessage(otherOrg, CreateMessageRequest(title, otherContent), 102);
  }

  /** Deactivating a message through an update succeeds; afterwards neither
      update nor delete accept it, and it can still be read. */
  method DeactivatedMessageIsFrozen(org: Guid, title: string, newTitle: string, content: string)
    returns (deactivate: Result, reactivate: Result, delete: Result, read: Option<Message>)
    requires !TitleInvalid(title) && !TitleInvalid(newTitle) && !ContentInvalid(content)
    ensures deactivate == Updated
    ensures reactivate == ValidationError(map[IsActiveField := [UpdateInactiveMessage]])
    ensures delete == ValidationError(map[IsActiveField := [DeleteInactiveMessage]])
    ensures read.Some? && !read.value.isActive && read.value.title == newTitle
  {
    var store := new MessageStore();
    var logic := new MessageLogic(store);
    var created := logic.CreateMessage(org, CreateMessageRequest(title, content), 1);
    var id := created.value.id;
    deactivate := logic.UpdateMessage(org, id, UpdateMessageRequest(newTitle, content, false), 2);
    reactivate := logic.UpdateMessage(org, id, UpdateMessageRequest(newTitle, content, true), 3);
    delete := logic.DeleteMessage(org, id);
    read := logic.GetMessage(org, id);
  }

  /** Updating a message under its own current title is not a conflict, but
      taking the title of another message of the organization is. */
  method OwnTitleIsNoConflict(org: Guid, title: string, otherTitle: string, content: string)
    returns (keep: Result, steal: Result)
    requires title != otherTitle
    requires !TitleInvalid(title) && !TitleInvalid(otherTitle) && !ContentInvalid(content)
    ensures keep == Updated
    ensures steal == Conflict(ConflictMessage)
  {
    var store := new MessageStore();
    var logic := new MessageLogic(store);
    var a := logic.CreateMessage(org, CreateMessageRequest(title, content), 1);
    var b := logic.CreateMessage(org, CreateMessageRequest(otherTitle, content), 2);
    keep := logic.UpdateMessage(org, a.value.id, UpdateMessageRequest(title, content, true), 3);
    steal := logic.UpdateMessage(org, a.value.id, UpdateMessageRequest(otherTitle, content, true), 4);
  }

  /** A request that breaks both rules is told about both fields, and nothing
      is stored. */
  method BothFieldErrorsReported(org: Guid, title: string, content: string)
    returns (r: Result, after: seq<Message>)
    requires TitleInvalid(title) && ContentInvalid(content)
    ensures r == ValidationError(map[TitleField := [TitleRuleMessage], ContentField := [ContentRuleMessage]])
    ensures forall m :: m !in after
  {
    var store := new MessageStore();
    var logic := new MessageLogic(store);
    r := logic.CreateMessage(org, CreateMessageRequest(title, content), 1);
    after := logic.GetAllMessages(org);
  }
}
