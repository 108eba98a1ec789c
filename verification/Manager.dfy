/** The scamper manager: never more than one probe in flight for a target. */
module Management {
  import opened Events
  import opened Capture

  datatype Outstanding = Outstanding(targets: set<TargetKey>, userids: map<Word, TargetKey>)

  /** What `operator[]` inserts for an unknown user id. */
  const DEFAULT_KEY := TargetKey(Address(0, 0, 0, 0), false)

  predicate Injective(userids: map<Word, TargetKey>) {
    forall u, v :: u in userids && v in userids && u != v ==> userids[u] != userids[v]
  }

  /** The targets are exactly the keys of the outstanding user ids, each with one id. */
  predicate Consistent(m: Outstanding) {
    Injective(m.userids) && m.userids.Values == m.targets
  }

  /** A request for `key`: dropped if a probe for it is in flight. */
  function Admit(m: Outstanding, key: TargetKey, uid: Word): Outstanding {
    if key in m.targets then m else Outstanding(m.targets + {key}, m.userids[uid := key])
  }

  /** A reply: looking up an unknown id finds the default key. */
  function Release(m: Outstanding, uid: Word): Outstanding {
    var key := if uid in m.userids then m.userids[uid] else DEFAULT_KEY;
    Outstanding(m.targets - {key}, m.userids - {uid})
  }

  /** A request for a free target occupies it under its id, and nothing else changes; one for an
      occupied target changes nothing. */
  lemma AdmitBooks(m: Outstanding, key: TargetKey, uid: Word, other: TargetKey, id: Word)
    ensures var n := Admit(m, key, uid);
            key in n.targets && (other != key ==> (other in n.targets <==> other in m.targets)) &&
            (key !in m.targets ==> uid in n.userids && n.userids[uid] == key) &&
            (id != uid || key in m.targets ==>
               (id in n.userids <==> id in m.userids) && (id in m.userids ==> n.userids[id] == m.userids[id]))
  {
  }

  /** A reply to an outstanding id ends its use and frees its target, and nothing else changes. */
  lemma ReleaseFrees(m: Outstanding, uid: Word, other: TargetKey, id: Word)
    requires uid in m.userids
    ensures var n := Release(m, uid);
            uid !in n.userids && m.userids[uid] !in n.targets &&
            (other != m.userids[uid] ==> (other in n.targets <==> other in m.targets)) &&
            (id != uid ==> (id in n.userids <==> id in m.userids) && (id in m.userids ==> n.userids[id] == m.userids[id]))
  {
  }

  lemma AdmitNewId(m: Outstanding, key: TargetKey, uid: Word)
    requires Consistent(m) && key !in m.targets && uid !in m.userids
    ensures Consistent(Admit(m, key, uid))
  {
    var n := Admit(m, key, uid);
    forall u | u in n.userids ensures n.userids[u] in n.targets {
      assert u != uid ==> n.userids[u] == m.userids[u] && m.userids[u] in m.userids.Values;
    }
    forall k | k in n.targets ensures k in n.userids.Values {
      if k == key {
        assert n.userids[uid] == k;
      } else {
        var u :| u in m.userids && m.userids[u] == k;
        assert n.userids[u] == k;
      }
    }
    forall u, v | u in n.userids && v in n.userids && u != v ensures n.userids[u] != n.userids[v] {
      assert u != uid ==> m.userids[u] in m.userids.Values;
      assert v != uid ==> m.userids[v] in m.userids.Values;
    }
  }

  /** A request keeps the bookkeeping consistent if and only if it is dropped or its user id
      is not in use. */
  lemma AdmitKeepsConsistentExactly(m: Outstanding, key: TargetKey, uid: Word)
    requires Consistent(m)
    ensures Consistent(Admit(m, key, uid)) <==> key in m.targets || uid !in m.userids
  {
    if key !in m.targets {
      var n := Admit(m, key, uid);
      if uid in m.userids {
        var lost := m.userids[uid];
        assert lost in m.userids.Values;
        forall u | u in n.userids ensures n.userids[u] != lost {
        }
        assert lost in n.targets && lost !in n.userids.Values;
      } else {
        AdmitNewId(m, key, uid);
      }
    }
  }

  lemma ReleaseKnownId(m: Outstanding, uid: Word)
    requires Consistent(m) && uid in m.userids
    ensures Consistent(Release(m, uid))
  {
    var n := Release(m, uid);
    var key := m.userids[uid];
    forall u | u in n.userids ensures n.userids[u] in n.targets {
      assert m.userids[u] in m.userids.Values;
    }
    forall k | k in n.targets ensures k in n.userids.Values {
      var u :| u in m.userids && m.userids[u] == k;
      assert u in n.userids && n.userids[u] == k;
    }
  }

  /** A reply keeps the bookkeeping consistent if and only if its user id is outstanding, or
      no probe to the default key is in flight. */
  lemma ReleaseKeepsConsistentExactly(m: Outstanding, uid: Word)
    requires Consistent(m)
    ensures Consistent(Release(m, uid)) <==> uid in m.userids || TargetKey(Address(0, 0, 0, 0), false) !in m.targets
  {
    var n := Release(m, uid);
    if uid in m.userids {
      ReleaseKnownId(m, uid);
    } else {
      assert n.userids == m.userids;
      if DEFAULT_KEY in m.targets {
        assert DEFAULT_KEY in n.userids.Values && DEFAULT_KEY !in n.targets;
      } else {
        assert n.targets == m.targets;
      }
    }
  }

  /** A target that no user id stands for. */
  predicate Orphan(m: Outstanding, key: TargetKey) {
    key in m.targets && key !in m.userids.Values
  }

  /** Overwriting a user id makes its target an orphan. */
  lemma OverwritingOrphans(m: Outstanding, key: TargetKey, uid: Word)
    requires Consistent(m) && key !in m.targets && uid in m.userids
    ensures Orphan(Admit(m, key, uid), m.userids[uid])
  {
    assert m.userids[uid] in m.userids.Values;
  }

  datatype Message = Wants(key: TargetKey, uid: Word) | Replied(uid: Word)

  function HandleAll(m: Outstanding, messages: seq<Message>): Outstanding {
    if messages == [] then m
    else
      var before := HandleAll(m, messages[..|messages| - 1]);
      match messages[|messages| - 1]
      case Wants(key, uid) => Admit(before, key, uid)
      case Replied(uid) => Release(before, uid)
  }

  /** An orphan, unless it has the default key, is never probed again, whatever happens. */
  lemma {:induction false} OrphansStayForever(m: Outstanding, messages: seq<Message>, key: TargetKey)
    requires Orphan(m, key) && key != TargetKey(Address(0, 0, 0, 0), false)
    ensures Orphan(HandleAll(m, messages), key)
  {
    if messages != [] {
      OrphansStayForever(m, messages[..|messages| - 1], key);
    }
  }

  class Manager {
    var targets: set<TargetKey>
    var userids: map<Word, TargetKey>
    var rps: nat
    /** Requests handed to the driver, and replies passed on. */
    var probed: seq<Request>
    var collected: seq<Word>

    ghost function Now(): Outstanding
      reads `targets, `userids
    {
      Outstanding(targets, userids)
    }

    constructor ()
      ensures Now() == Outstanding({}, map[]) && probed == [] && collected == [] && rps == 0
    {
      targets, userids := {}, map[];
      rps := 0;
      probed, collected := [], [];
    }

    /** The request handler. */
    method HandleRequest(req: Request, isIrregular: bool)
      modifies `targets, `userids, `rps, `probed
      ensures Now() == Admit(old(Now()), TargetKey(req.daddr, isIrregular), req.userId)
      ensures probed == old(probed) + if TargetKey(req.daddr, isIrregular) in old(targets) then [] else [req]
      ensures rps == old(rps) + |probed| - |old(probed)|
    {
      var key := TargetKey(req.daddr, isIrregular);
      if key !in targets {
        probed := probed + [req];
        rps := rps + 1;
        targets := targets + {key};
        userids := userids[req.userId := key];
      }
    }

    /** The request handler for messages without the irregular flag. */
    method HandlePlainRequest(req: Request)
      modifies `targets, `userids, `rps, `probed
      ensures Now() == Admit(old(Now()), TargetKey(req.daddr, false), req.userId)
      ensures probed == old(probed) + if TargetKey(req.daddr, false) in old(targets) then [] else [req]
    {
      var key := TargetKey(req.daddr, false);
      if key !in targets {
        probed := probed + [req];
        rps := rps + 1;
        targets := targets + {key};
        userids := userids[req.userId := key];
      }
    }

    /** The reply handler. */
    method HandleReply(userid: Word)
      modifies `targets, `userids, `collected
      ensures Now() == Release(old(Now()), userid) && collected == old(collected) + [userid]
    {
      if userid !in userids {
        userids := userids[userid := DEFAULT_KEY];
      }
      var key := userids[userid];
      targets := targets - {key};
      userids := userids - {userid};
      collected := collected + [userid];
    }
  }
}
