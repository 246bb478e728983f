/** The gateway session registry: who owns each session, and the reverse
    index from an owner to its sessions. */
module SessionRegistry {
  import opened Common

  const MULTI_ORG_SENTINEL := "__multi__"

  datatype Owner = Owner(org: string, user: string)

  /** The owners whose sessions a per-org query collects. */
  predicate ForOrg(o: Owner, org: string, members: Option<set<string>>) {
    o.org == org || (o.org == MULTI_ORG_SENTINEL && members.Some? && o.user in members.value)
  }

  /** `ids` lists each element of `s` once, in some order. */
  ghost predicate Enumerates(ids: seq<string>, s: set<string>) {
    NoDup(ids) && forall x :: x in ids <==> x in s
  }

  method Listed(s: set<string>) returns (ids: seq<string>)
    ensures Enumerates(ids, s)
  {
    ids := [];
    var todo := s;
    while todo != {}
      invariant todo <= s && Enumerates(ids, s - todo)
    {
      var x :| x in todo;
      todo := todo - {x};
      ids := ids + [x];
    }
  }

  class GatewaySessionRegistry {
    var sessionOwner: map<string, Owner>
    var userToSessions: map<Owner, set<string>>
    /** The disconnect callbacks made, with the owner each was given. */
    var disconnected: seq<(string, Owner)>

    /** The reverse index is the inverse of the forward map; an owner whose
        last session moved away may keep an empty entry. */
    ghost predicate Valid()
      reads this
    {
      && (forall s :: s in sessionOwner ==> sessionOwner[s] in userToSessions && s in userToSessions[sessionOwner[s]])
      && (forall o, s :: o in userToSessions && s in userToSessions[o] ==> s in sessionOwner && sessionOwner[s] == o)
    }

    constructor ()
      ensures Valid() && sessionOwner == map[] && disconnected == []
    {
      sessionOwner, userToSessions, disconnected := map[], map[], [];
    }

    method Register(session: string, org: string, user: string)
      requires Valid()
      modifies this
      ensures Valid() && sessionOwner == old(sessionOwner)[session := Owner(org, user)]
      ensures disconnected == old(disconnected)
    {
      var owner := Owner(org, user);
      if session in sessionOwner && sessionOwner[session] == owner {
        assert sessionOwner == sessionOwner[session := owner];
        return;
      }
      if session in sessionOwner {
        var prev := sessionOwner[session];
        if prev in userToSessions {
          userToSessions := userToSessions[prev := userToSessions[prev] - {session}];
        }
      }
      sessionOwner := sessionOwner[session := owner];
      var sessions := if owner in userToSessions then userToSessions[owner] else {};
      userToSessions := userToSessions[owner := sessions + {session}];
    }

    /** The callback is told the owner exactly when there was one. */
    method Unregister(session: string)
      requires Valid()
      modifies this
      ensures Valid() && sessionOwner == old(sessionOwner) - {session}
      ensures disconnected == old(disconnected) +
        if session in old(sessionOwner) then [(session, old(sessionOwner)[session])] else []
      ensures session in old(sessionOwner) && old(sessionOwner)[session] in userToSessions ==>
        userToSessions[old(sessionOwner)[session]] != {}
    {
      if session !in sessionOwner {
        return;
      }
      var owner := sessionOwner[session];
      sessionOwner := sessionOwner - {session};
      if owner in userToSessions {
        var sessions := userToSessions[owner] - {session};
        if sessions == {} {
          userToSessions := userToSessions - {owner};
        } else {
          userToSessions := userToSessions[owner := sessions];
        }
      }
      disconnected := disconnected + [(session, owner)];
    }

    /** Exactly the user's sessions, the multi-org ones included, each once. */
    method GetSessionIdsForUser(org: string, user: string) returns (ids: seq<string>)
      requires Valid()
      ensures NoDup(ids)
      ensures forall s :: s in ids <==> (
        && s in sessionOwner && sessionOwner[s].user == user
        && (sessionOwner[s].org == org || (sessionOwner[s].org == MULTI_ORG_SENTINEL && org != MULTI_ORG_SENTINEL)))
    {
      var own := Owner(org, user);
      ids := Listed(if own in userToSessions then userToSessions[own] else {});
      if org != MULTI_ORG_SENTINEL {
        var multi := Owner(MULTI_ORG_SENTINEL, user);
        var more := Listed(if multi in userToSessions then userToSessions[multi] else {});
        assert forall s :: s in ids ==> sessionOwner[s] == own;
        assert forall s :: s in more ==> sessionOwner[s] == multi;
        NoDupConcat(ids, more);
        ids := ids + more;
      }
    }

    /** Exactly the org's sessions and its members' multi-org ones, each once. */
    method GetSessionIdsForOrg(org: string, members: Option<set<string>>) returns (ids: seq<string>)
      requires Valid()
      ensures NoDup(ids)
      ensures forall s :: s in ids <==> (
        && s in sessionOwner
        && (sessionOwner[s].org == org
            || (sessionOwner[s].org == MULTI_ORG_SENTINEL && members.Some? && sessionOwner[s].user in members.value)))
    {
      ids := [];
      var todo := userToSessions.Keys;
      while todo != {}
        invariant todo <= userToSessions.Keys && NoDup(ids)
        invariant forall s :: s in ids <==>
          s in sessionOwner && sessionOwner[s] !in todo && ForOrg(sessionOwner[s], org, members)
      {
        var o :| o in todo;
        todo := todo - {o};
        if ForOrg(o, org, members) {
          var more := Listed(userToSessions[o]);
          NoDupConcat(ids, more);
          ids := ids + more;
        }
      }
    }

    method GetAllSessionIds() returns (ids: seq<string>)
      ensures Enumerates(ids, sessionOwner.Keys)
    {
      ids := Listed(sessionOwner.Keys);
    }
  }
}
