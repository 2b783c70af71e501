/** The allowed topics and their dynamic, exclusive ownership. */
module TopicRegistries {
  import opened Options
  import opened Messages

  datatype ClaimError = TopicNotAllowed | TopicOwnedByAnother(owner: Name)

  function OwnersAfterClaim(owners: map<Name, Name>, topic: Name, client: Name): map<Name, Name> {
    owners[topic := client]
  }

  /** A claim is refused for a topic outside the allowed set or owned by someone else. */
  function ClaimRefusal(allowed: set<Name>, owners: map<Name, Name>, topic: Name, client: Name): Option<ClaimError> {
    if topic !in allowed then Some(TopicNotAllowed)
    else if topic in owners && owners[topic] != client then Some(TopicOwnedByAnother(owners[topic]))
    else None
  }

  function Released(owners: map<Name, Name>, client: Name): map<Name, Name> {
    map t | t in owners && owners[t] != client :: owners[t]
  }

  class TopicRegistry {
    const allowed: set<Name>
    var owners: map<Name, Name>

    constructor (allowed: set<Name>)
      ensures this.allowed == allowed && owners == map[]
    {
      this.allowed, owners := allowed, map[];
    }

    method IsAllowed(topic: Name) returns (ok: bool)
      ensures ok <==> topic in allowed
    {
      return topic in allowed;
    }

    method Claim(topic: Name, client: Name) returns (err: Option<ClaimError>)
      modifies this
      ensures err == ClaimRefusal(allowed, old(owners), topic, client)
      ensures err == None <==> topic in allowed && (topic in old(owners) ==> old(owners)[topic] == client)
      ensures err == Some(TopicNotAllowed) <==> topic !in allowed
      ensures err == None ==> topic in owners && owners[topic] == client
      ensures owners == if err.None? then OwnersAfterClaim(old(owners), topic, client) else old(owners)
    {
      if topic !in allowed {
        return Some(TopicNotAllowed);
      }
      if topic in owners && owners[topic] != client {
        return Some(TopicOwnedByAnother(owners[topic]));
      }
      owners := owners[topic := client];
      return None;
    }

    method Release(client: Name)
      modifies this
      ensures owners == Released(old(owners), client)
    {
      var todo := owners.Keys;
      while todo != {}
        invariant todo <= owners.Keys <= old(owners).Keys
        invariant forall t :: t in owners ==> owners[t] == old(owners)[t] && (t !in todo ==> owners[t] != client)
        invariant forall t :: t in old(owners) && old(owners)[t] != client ==> t in owners
        decreases |todo|
      {
        var topic :| topic in todo;
        todo := todo - {topic};
        if owners[topic] == client {
          owners := owners - {topic};
        }
      }
    }
  }

  /** A claim may be repeated by its owner, is refused to everyone else until the owner releases, and is then
      accepted from anyone. */
  lemma ClaimUntilReleased(allowed: set<Name>, owners: map<Name, Name>, topic: Name, client: Name, other: Name)
    requires topic in allowed && (topic in owners ==> owners[topic] == client) && other != client
    ensures ClaimRefusal(allowed, owners, topic, client) == None
    ensures var claimed := OwnersAfterClaim(owners, topic, client);
      && ClaimRefusal(allowed, claimed, topic, client) == None
      && ClaimRefusal(allowed, claimed, topic, other) == Some(TopicOwnedByAnother(client))
      && ClaimRefusal(allowed, Released(claimed, other), topic, other) == Some(TopicOwnedByAnother(client))
      && ClaimRefusal(allowed, Released(claimed, client), topic, other) == None
  {
  }
}
