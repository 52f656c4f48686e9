# Message API decision logic, modelled in Dafny

This project models `MessageLogic`, the component of the message API that
decides, for every create, update and delete of a message, which single
outcome applies: `Created`, `Updated`, `Deleted`, `NotFound`, `Conflict` or
`ValidationError`. It checks the title and content rules, looks the target up
and refuses an inactive one, and enforces title uniqueness within an
organization through the injected repository. The two reads pass straight
through to the repository.

Files and modules:

- `models.dfy` (`Models`): identifiers, the `Message` record, the create and
  update request bodies, and the `Result` variants.
- `validation.dfy` (`Validation`): the white-space test, the title and
  content rules, and `CollectFieldErrors`, which fills the error map one
  field after the other.
- `repository.dfy` (`Repositories`): `MessageStore`, a class whose field
  `messages` maps `(organizationId, id)` to the stored message. Its methods
  (`GetById`, `GetByTitle`, `GetAllByOrganization`, `Create`, `Update`,
  `Delete`) state exactly how they read or change that map. This is the
  contract the logic relies on, not the database behind it.
- `message_logic.dfy` (`Logic`): the class `MessageLogic`, holding the
  repository, with one method per operation. Each mutation's `ensures`
  classifies the outcome from the request and the store before the call. It
  also says what the store is afterwards, and that titles unique per
  organization stay unique.
- `scenarios.dfy` (`Scenarios`): call sequences, verified over a fresh,
  empty store for any input that meets each scenario's requires. They show what callers can conclude from the contracts alone: one
  title per organization, an inactive message is frozen, keeping one's own
  title is no conflict, and both field errors are reported together.

The repository's title lookup is assumed to match inactive messages as well
as active ones, so a create whose title an inactive message of the
organization already uses is a Conflict. The logic itself only tests whether
the lookup found anything. Each failing field is reported with exactly one
message.

## Model

| member | source | states |
|---|---|---|
| `Validation.IsNullOrWhiteSpace` | CodeChallenge.Api/Logic/MessageLogic.cs:19 | true exactly when every character is white space, so the empty (or missing) value counts as blank |
| `Validation.CollectFieldErrors` | CodeChallenge.Api/Logic/MessageLogic.cs:17-23 | the map has the key "Title" exactly when the title is blank or its length is outside [3,200], and the key "Content" exactly when the content is blank or its length is outside [10,1000]; each key holds that rule's single message, no other key appears, and the map is empty exactly when both fields pass |
| `Validation.TitleInvalid` | CodeChallenge.Api/Logic/MessageLogic.cs:19 | a title breaks its rule exactly when it consists of white space only (the empty title included) or its length is outside [3,200], bounds inclusive |
| `Validation.ContentInvalid` | CodeChallenge.Api/Logic/MessageLogic.cs:22 | a content breaks its rule exactly when it consists of white space only (the empty content included) or its length is outside [10,1000], bounds inclusive |
| `Validation.FieldErrorsAreDetermined` | CodeChallenge.Api/Logic/MessageLogic.cs:17-23 | the error map is determined by the title and content alone |
| `Validation.LengthBoundsAreInclusive` | CodeChallenge.Api/Logic/MessageLogic.cs:19-23 | titles of length 3 and 200 and contents of length 10 and 1000 pass; lengths 2, 201, 9 and 1001 fail |
| `Validation.BlankFieldsAreInvalid` | CodeChallenge.Api/Logic/MessageLogic.cs:19-22 | a title or content made only of white-space characters fails whatever its length |
| `Repositories.MessageStore.GetById` | CodeChallenge.Api/Logic/MessageLogic.cs:47 | finds a message exactly when one is stored under (organization, id), and returns that message |
| `Repositories.MessageStore.GetByTitle` | CodeChallenge.Api/Logic/MessageLogic.cs:28 | finds nothing exactly when no message of the organization has the title; otherwise returns a stored message of that organization with exactly that title |
| `Repositories.MessageStore.GetAllByOrganization` | CodeChallenge.Api/Logic/MessageLogic.cs:97 | lists every stored message of the organization, nothing else, and no id twice |
| `Repositories.MessageStore.NewId` | CodeChallenge.Api/Logic/MessageLogic.cs:41 | the identifier assigned on creation is non-empty and used by no stored message |
| `Repositories.MessageStore.Create` | CodeChallenge.Api/Logic/MessageLogic.cs:41 | stores the given message under a new id and returns it; nothing else in the store changes |
| `Repositories.MessageStore.Update` | CodeChallenge.Api/Logic/MessageLogic.cs:73 | answers non-null exactly when the message's key is stored, and then overwrites only that entry; otherwise the store is unchanged |
| `Repositories.MessageStore.Delete` | CodeChallenge.Api/Logic/MessageLogic.cs:86 | answers true exactly when the key was stored, and afterwards the key is gone |
| `Logic.MessageLogic.constructor` | CodeChallenge.Api/Logic/MessageLogic.cs:10-13 | the logic works on the repository it is given |
| `Logic.MessageLogic.CreateMessage` | CodeChallenge.Api/Logic/MessageLogic.cs:15-43 | ValidationError exactly when a field rule fails, with both failing fields reported; Conflict exactly when the fields pass and the organization already uses the title; otherwise Created, wrapping the stored message, which has the request's organization, title and content, is active, and has a fresh id. Only the success path changes the store, and title uniqueness per organization is preserved |
| `Logic.MessageLogic.UpdateMessage` | CodeChallenge.Api/Logic/MessageLogic.cs:45-75 | NotFound for a missing target. For an inactive target, a ValidationError whose only key is "IsActive", even when the request is valid. Then field errors as for create. Conflict only when another message of the organization holds the requested title; always then when the target's own title differs from the requested one, and in every case while titles are unique; keeping its own title is not a conflict. A found, active target with valid fields always ends in Conflict or Updated, NotFound only for a missing target, and a ValidationError only for an inactive target or a failing field. On Updated only title, content, active flag and update time of the target change. Every other outcome leaves the store unchanged, and title uniqueness is preserved |
| `Logic.MessageLogic.DeleteMessage` | CodeChallenge.Api/Logic/MessageLogic.cs:77-88 | NotFound for a missing target; a ValidationError whose only key is "IsActive" for an inactive target, with the store unchanged; otherwise Deleted, and the target is removed |
| `Logic.MessageLogic.GetMessage` | CodeChallenge.Api/Logic/MessageLogic.cs:90-93 | returns the stored message under (organization, id), or none when there is none |
| `Logic.MessageLogic.GetAllMessages` | CodeChallenge.Api/Logic/MessageLogic.cs:95-98 | lists exactly the organization's stored messages, each id once |
| `Scenarios.TitleUniquePerOrganization` | CodeChallenge.Api/Logic/MessageLogic.cs:25-42 | a valid create succeeds with the title kept and the message active; the same title again in that organization is a Conflict; in another organization it is Created |
| `Scenarios.DeactivatedMessageIsFrozen` | CodeChallenge.Api/Logic/MessageLogic.cs:45-87 | an update that sets the active flag to false is Updated; afterwards update and delete both answer the "IsActive" ValidationError, and the message can still be read |
| `Scenarios.OwnTitleIsNoConflict` | CodeChallenge.Api/Logic/MessageLogic.cs:64-74 | updating a message under its own title is Updated; taking another message's title is a Conflict |
| `Scenarios.BothFieldErrorsReported` | CodeChallenge.Api/Logic/MessageLogic.cs:17-26 | when both fields are invalid, the ValidationError carries both the "Title" and the "Content" entry, and nothing is stored |

## Left out

- The HTTP controller (`MessagesController.cs`) is not modelled. Each action maps the variants its own operation returns to a status code and sends any other variant to 500; it belongs to the transport layer.
- Faults are not modelled. In the source, an exception from a repository call, or a null request, propagates out of the logic's methods uncaught. Here the store never fails and the request is a plain value, so every call returns a `Result` variant.
- Asynchronous execution (`Task`, `await`) is not modelled. The repository calls are plain sequential method calls.
- The clock (`DateTime.UtcNow`) is a `now` parameter of create and update.
- Guids are natural numbers, with 0 as the empty Guid; their 128-bit width is not modelled. Random Guid generation is replaced by `NewId`, which picks an id above every id in use. The model relies only on that id being unused.
- The repository's implementation and its database are not part of this model. `MessageStore` keeps only the contract the logic relies on. Title lookup is assumed to match exactly: case-sensitive, without trimming, and over active and inactive messages alike.
- The race between the title lookup and the store's create or update is not modelled, because calls run one after another here. For the same reason, the `NotFound` answers when `UpdateAsync` returns null (line 74) or `DeleteAsync` returns false (line 87) appear in the code but are never taken: the store answers from the state the lookup just saw.
- The update changes the fields of the fetched `Message` entity in place. Here that is a record update of a value, and whatever aliasing the repository's tracked entity has with the stored one is not captured.
- `IsWhiteSpace` is a fixed set of the characters .NET treats as white space. String lengths count Dafny characters, whereas .NET counts UTF-16 code units, so a character outside the Basic Multilingual Plane counts 2 there and 1 here.
- A null title or content is treated as the empty string.
- Logic.MessageLogic.UpdateMessage: when titles are not unique and the target already has the requested title that another message also holds, the lookup may return the target itself or the other message; the contract then promises Conflict or Updated without saying which.
- Repositories.MessageStore.GetByTitle: when several messages of the organization share the title, which one is returned is left open, as in the repository's contract.
- Scenarios.BothFieldErrorsReported: "nothing is stored" is stated as "no message is listed for the organization" rather than as the listing being the empty sequence.
