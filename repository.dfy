/** The message repository the logic layer is handed. Its implementation is
    not part of this model; `MessageStore` is the smallest store that keeps
    the repository's contract: messages keyed by organization and id, lookups
    by id and by title within an organization, and create, update and delete
    that say exactly how the stored map changes. */
module Repositories {
  import opened Models

  /** (organizationId, id) */
  type Key = (Guid, Guid)

  /** Every stored message sits under its own organization and id. */
  ghost predicate WellKeyed(ms: map<Key, Message>) {
    forall k :: k in ms ==> ms[k].organizationId == k.0 && ms[k].id == k.1
  }

  /** Some message of organization `org` has this exact title
      (case-sensitive, no trimming). */
  ghost predicate TitleTaken(ms: map<Key, Message>, org: Guid, title: string) {
    exists k :: k in ms && k.0 == org && ms[k].title == title
  }

  /** Some message of organization `org` other than `id` has this title. */
  ghost predicate TitleHeldByOther(ms: map<Key, Message>, org: Guid, title: string, id: Guid) {
    exists k :: k in ms && k.0 == org && k.1 != id && ms[k].title == title
  }

  /** Within one organization no two messages share a title; different
      organizations may. */
  ghost predicate TitlesUnique(ms: map<Key, Message>) {
    forall k1, k2 :: k1 in ms && k2 in ms && k1.0 == k2.0 && ms[k1].title == ms[k2].title ==> k1 == k2
  }

  /** No stored message, in any organization, uses `id`. */
  ghost predicate IdUnused(ms: map<Key, Message>, id: Guid) {
    forall k :: k in ms ==> k.1 != id
  }

  /** The stored messages, keyed by organization and id; `Valid` keeps every
      message under its own key. */
  class MessageStore {
    var messages: map<Key, Message>

    ghost predicate Valid()
      reads this
    {
      WellKeyed(messages)
    }

    constructor ()
      ensures Valid() && messages == map[]
    {
      messages := map[];
    }

    /** `GetByIdAsync`: the message stored under (organizationId, id), if any. */
    method GetById(organizationId: Guid, id: Guid) returns (r: Option<Message>)
      ensures r.Some? <==> (organizationId, id) in messages
      ensures r.Some? ==> r.value == messages[(organizationId, id)]
    {
      var key := (organizationId, id);
      if key in messages {
        r := Some(messages[key]);
      } else {
        r := None;
      }
    }

    /** `GetByTitleAsync`: some message of the organization with exactly this
        title, if there is one; which one, when several match, is left open. */
    method GetByTitle(organizationId: Guid, title: string) returns (r: Option<Message>)
      requires Valid()
      ensures r.None? <==> !TitleTaken(messages, organizationId, title)
      ensures r.Some? ==> var key := (organizationId, r.value.id);
                          key in messages && messages[key] == r.value && r.value.title == title
    {
      if exists k :: k in messages && k.0 == organizationId && messages[k].title == title {
        var k :| k in messages && k.0 == organizationId && messages[k].title == title;
        r := Some(messages[k]);
      } else {
        r := None;
      }
    }

    /** `GetAllByOrganizationAsync`: every message of the organization, once
        each, in no particular order. */
    method GetAllByOrganization(organizationId: Guid) returns (all: seq<Message>)
      requires Valid()
      ensures forall m :: m in all ==> var key := (organizationId, m.id);
                                       key in messages && messages[key] == m
      ensures forall k :: k in messages && k.0 == organizationId ==> messages[k] in all
      ensures forall i, j :: 0 <= i < j < |all| ==> all[i].id != all[j].id
    {
      all := [];
      var pending := messages.Keys;
      while pending != {}
        invariant pending <= messages.Keys
        invariant forall i :: 0 <= i < |all| ==>
          var key := (organizationId, all[i].id);
          key in messages && key !in pending && messages[key] == all[i]
        invariant forall k :: k in messages && k !in pending && k.0 == organizationId ==> messages[k] in all
        invariant forall i, j :: 0 <= i < j < |all| ==> all[i].id != all[j].id
        decreases pending
      {
        var k: Key :| k in pending;
        if k.0 == organizationId {
          all := all + [messages[k]];
        }
        pending := pending - {k};
      }
    }

    /** Stands in for Guid generation: an id that no stored message uses. */
    method NewId() returns (id: Guid)
      ensures IdUnused(messages, id) && id != EmptyGuid
    {
      id := 1;
      var pending := messages.Keys;
      while pending != {}
        invariant pending <= messages.Keys
        invariant id != EmptyGuid
        invariant forall k :: k in messages && k !in pending ==> k.1 < id
        decreases pending
      {
        var k: Key :| k in pending;
        if k.1 >= id {
          id := k.1 + 1;
        }
        pending := pending - {k};
      }
    }

    /** `CreateAsync`: stores the message under a newly assigned id and
        returns what was stored. */
    method Create(message: Message) returns (created: Message)
      requires Valid()
      modifies this
      ensures Valid()
      ensures created == message.(id := created.id)
      ensures IdUnused(old(messages), created.id) && created.id != EmptyGuid
      ensures messages == old(messages)[(created.organizationId, created.id) := created]
    {
      var id := NewId();
      created := message.(id := id);
      messages := messages[(created.organizationId, id) := created];
    }

    /** `UpdateAsync`: overwrites the stored message with the same key;
        answers None when there is none. */
    method Update(message: Message) returns (r: Option<Message>)
      requires Valid()
      modifies this
      ensures Valid()
      ensures r.Some? <==> (message.organizationId, message.id) in old(messages)
      ensures r.Some? ==>
        r.value == message && messages == old(messages)[(message.organizationId, message.id) := message]
      ensures r.None? ==> messages == old(messages)
    {
      var key := (message.organizationId, message.id);
      if key in messages {
        messages := messages[key := message];
        r := Some(message);
      } else {
        r := None;
      }
    }

    /** `DeleteAsync`: removes the message under (organizationId, id) and
        says whether there was one. */
    method Delete(organizationId: Guid, id: Guid) returns (deleted: bool)
      requires Valid()
      modifies this
      ensures Valid()
      ensures deleted <==> (organizationId, id) in old(messages)
      ensures messages == old(messages) - {(organizationId, id)}
    {
      var key := (organizationId, id);
      deleted := key in messages;
      messages := messages - {key};
    }
  }
}
