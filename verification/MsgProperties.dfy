/** What every run of the message bus keeps: the retention law of inboxes and the two-way group index. */
module MsgProperties {
  import opened Options
  import opened Arithmetic
  import opened Msg

  // ----- retention -----

  function BodyBytes(messages: seq<StoredMsg>): nat {
    if messages == [] then 0 else |messages[0].body| + BodyBytes(messages[1..])
  }

  ghost predicate Fits(messages: seq<StoredMsg>) {
    |messages| <= MAX_INBOX_MESSAGES && BodyBytes(messages) <= MAX_INBOX_BODY_BYTES
  }

  /** A full delivery log: numbered from 1, no oversized body. */
  ghost predicate IsLog(log: seq<StoredMsg>) {
    forall i | 0 <= i < |log| :: log[i].seqNo == i + 1 && |log[i].body| <= MAX_MESSAGE_BODY_BYTES
  }

  /** The inbox holds a suffix of its log, no longer one of which fits. */
  ghost predicate HoldsSuffix(s: InboxState, log: seq<StoredMsg>) {
    && IsLog(log)
    && s.nextSeq == |log| + 1
    && s.dropped <= |log| && s.messages == log[s.dropped..]
    && s.totalBytes == BodyBytes(s.messages)
    && (s.dropped > 0 ==> !Fits(log[s.dropped - 1..]))
    && (log != [] ==> s.messages != [])
    && s.ackSeq <= |log|
  }

  /** The retention law: the longest suffix of the log that fits the caps, never empty after a delivery. */
  ghost predicate Retains(s: InboxState, log: seq<StoredMsg>) {
    HoldsSuffix(s, log) && Fits(s.messages)
  }

  lemma {:induction false} BodyBytesAppend(messages: seq<StoredMsg>, m: StoredMsg)
    ensures BodyBytes(messages + [m]) == BodyBytes(messages) + |m.body|
  {
    if messages == [] {
      assert messages + [m] == [m] && [m][1..] == [];
    } else {
      assert (messages + [m])[1..] == messages[1..] + [m];
      BodyBytesAppend(messages[1..], m);
    }
  }

  lemma {:induction false} SuffixFits(log: seq<StoredMsg>, j: nat, k: nat)
    requires j <= k <= |log| && Fits(log[j..])
    ensures Fits(log[k..])
    decreases k - j
  {
    if j < k {
      assert log[j..][1..] == log[j + 1..];
      SuffixFits(log, j + 1, k);
    }
  }

  /** An inbox over its caps holds at least two messages. */
  lemma OverCapsHasTwo(s: InboxState, log: seq<StoredMsg>)
    requires HoldsSuffix(s, log) && OverCaps(s)
    ensures |s.messages| >= 2
  {
    hide Fits;
    AtMostOneBody(s.messages);
    assert forall i | 0 <= i < |s.messages| :: s.messages[i] == log[s.dropped + i];
    assert forall i | 0 <= i < |s.messages| :: |s.messages[i].body| <= MAX_MESSAGE_BODY_BYTES;
  }

  lemma AtMostOneBody(messages: seq<StoredMsg>)
    ensures |messages| <= 1 ==> BodyBytes(messages) == if messages == [] then 0 else |messages[0].body|
  {
    if |messages| == 1 {
      assert messages[1..] == [];
    }
  }

  lemma DropHolds(s: InboxState, log: seq<StoredMsg>)
    requires HoldsSuffix(s, log) && OverCaps(s) && |s.messages| >= 2
    ensures HoldsSuffix(DropOldest(s), log)
  {
    hide IsLog;
    assert log[s.dropped..][1..] == log[s.dropped + 1..];
    assert !Fits(log[s.dropped..]);
    assert BodyBytes(s.messages) == |s.messages[0].body| + BodyBytes(s.messages[1..]);
    hide Fits;
  }

  lemma HoldsRetains(s: InboxState, log: seq<StoredMsg>)
    requires HoldsSuffix(s, log) && !OverCaps(s)
    ensures Retains(s, log)
  {
    hide IsLog;
  }

  lemma {:induction false} EnforceRetains(s: InboxState, log: seq<StoredMsg>)
    requires HoldsSuffix(s, log)
    ensures Retains(EnforceCaps(s), log)
    ensures EnforceCaps(s).nextSeq == s.nextSeq && EnforceCaps(s).ackSeq == s.ackSeq
    decreases |s.messages|
  {
    hide HoldsSuffix, Retains, OverCaps;
    if OverCaps(s) {
      OverCapsHasTwo(s, log);
      DropHolds(s, log);
      EnforceRetains(DropOldest(s), log);
    } else {
      HoldsRetains(s, log);
    }
  }

  lemma FitsShrinks(messages: seq<StoredMsg>, m: StoredMsg)
    requires Fits(messages + [m])
    ensures Fits(messages)
  {
    BodyBytesAppend(messages, m);
  }

  lemma LogGrows(log: seq<StoredMsg>, msg: StoredMsg)
    requires IsLog(log) && |msg.body| <= MAX_MESSAGE_BODY_BYTES
    ensures IsLog(log + [msg.(seqNo := |log| + 1)])
  {
  }

  lemma AppendHolds(s: InboxState, log: seq<StoredMsg>, msg: StoredMsg)
    requires Retains(s, log) && |msg.body| <= MAX_MESSAGE_BODY_BYTES
    ensures HoldsSuffix(Append(s, msg), log + [msg.(seqNo := |log| + 1)])
  {
    hide IsLog, Fits, BodyBytes;
    var m := msg.(seqNo := |log| + 1);
    var more := log + [m];
    LogGrows(log, msg);
    assert more[s.dropped..] == log[s.dropped..] + [m];
    BodyBytesAppend(s.messages, m);
    if s.dropped > 0 {
      assert more[s.dropped - 1..] == log[s.dropped - 1..] + [m];
      if Fits(more[s.dropped - 1..]) { FitsShrinks(log[s.dropped - 1..], m); }
    }
  }

  /** A delivery keeps the retention law, with the new message at the end of the log. */
  lemma DeliverRetains(s: InboxState, log: seq<StoredMsg>, msg: StoredMsg)
    requires Retains(s, log) && |msg.body| <= MAX_MESSAGE_BODY_BYTES
    ensures Retains(DeliverTo(s, msg), log + [msg.(seqNo := |log| + 1)])
  {
    hide HoldsSuffix, Fits, EnforceCaps, Append;
    AppendHolds(s, log, msg);
    EnforceRetains(Append(s, msg), log + [msg.(seqNo := |log| + 1)]);
  }

  lemma AckRetains(s: InboxState, log: seq<StoredMsg>, upTo: nat)
    requires Retains(s, log)
    ensures Retains(AckUpTo(s, upTo), log)
    ensures AckUpTo(s, upTo).ackSeq == Max(s.ackSeq, if upTo < |log| then upTo else |log|)
  {
    if log != [] {
      assert s.messages[|s.messages| - 1] == log[|log| - 1];
    }
  }

  /** A suffix of the log fits the caps exactly when it is no longer than what is retained. */
  lemma RetainedIsLongest(s: InboxState, log: seq<StoredMsg>, k: nat)
    requires Retains(s, log) && k <= |log|
    ensures Fits(log[k..]) <==> s.dropped <= k
  {
    if s.dropped <= k {
      SuffixFits(log, s.dropped, k);
    } else if Fits(log[k..]) {
      SuffixFits(log, k, s.dropped - 1);
    }
  }

  /** The newest message is kept, and sequence numbers are the contiguous range after the dropped ones. */
  lemma RetainedRange(s: InboxState, log: seq<StoredMsg>)
    requires Retains(s, log)
    ensures |s.messages| == s.nextSeq - 1 - s.dropped
    ensures forall i | 0 <= i < |s.messages| :: s.messages[i].seqNo == s.dropped + 1 + i
    ensures log != [] ==> s.messages != [] && s.messages[|s.messages| - 1] == log[|log| - 1]
  {
  }

  lemma {:induction false} CountFrom(messages: seq<StoredMsg>, first: nat, ack: nat)
    requires forall i | 0 <= i < |messages| :: messages[i].seqNo == first + 1 + i
    ensures CountUnread(messages, ack) == if ack <= first then |messages| else if ack < first + |messages| then first + |messages| - ack else 0
    decreases |messages|
  {
    if messages != [] {
      CountFrom(messages[1..], first + 1, ack);
    }
  }

  /** The unread count is everything delivered beyond both the cursor and the dropped messages. */
  lemma UnreadExact(s: InboxState, log: seq<StoredMsg>)
    requires Retains(s, log)
    ensures CountUnread(s.messages, s.ackSeq) == s.nextSeq - 1 - Max(s.ackSeq, s.dropped)
  {
    RetainedRange(s, log);
    CountFrom(s.messages, s.dropped, s.ackSeq);
  }

  lemma {:induction false} ListFrom(messages: seq<StoredMsg>, first: nat, after: Option<nat>, includeRead: bool, ack: nat)
    requires forall i | 0 <= i < |messages| :: messages[i].seqNo == first + 1 + i
    ensures var bound := Max(match after case Some(n) => n case None => 0, if includeRead then 0 else ack);
            ListMessages(messages, after, includeRead, ack) ==
            if bound <= first then messages else if bound < first + |messages| then messages[bound - first..] else []
    decreases |messages|
  {
    if messages != [] {
      ListFrom(messages[1..], first + 1, after, includeRead, ack);
    }
  }

  lemma RetainedSuffix(s: InboxState, log: seq<StoredMsg>)
    requires Retains(s, log)
    ensures s.dropped <= |log| && s.messages == log[s.dropped..]
  {
    hide IsLog, Fits, BodyBytes;
  }

  lemma SuffixOfSuffix<T>(s: seq<T>, i: nat, j: nat)
    requires i <= |s|
    ensures i <= j <= |s| ==> s[i..][j - i..] == s[j..]
  {
  }

  /** Listing returns the retained part of the log after the given number and, unless read messages are wanted, after the cursor. */
  lemma ListExact(s: InboxState, log: seq<StoredMsg>, after: Option<nat>, includeRead: bool)
    requires Retains(s, log)
    ensures var bound := Max(match after case Some(n) => n case None => 0, if includeRead then 0 else s.ackSeq);
            ListMessages(s.messages, after, includeRead, s.ackSeq) == log[if bound < |log| then Max(bound, s.dropped) else |log|..]
  {
    hide Retains, ListMessages;
    var bound := Max(match after case Some(n) => n case None => 0, if includeRead then 0 else s.ackSeq);
    RetainedSuffix(s, log);
    RetainedRange(s, log);
    ListFrom(s.messages, s.dropped, after, includeRead, s.ackSeq);
    SuffixOfSuffix(log, s.dropped, bound);
  }

  // ----- the group index -----

  predicate Has<K, V>(m: map<K, set<V>>, k: K, v: V) {
    k in m && v in m[k]
  }

  /** The two indexes are inverse relations and hold no empty set. */
  ghost predicate Inverse(s: BusState) {
    && (forall p, g :: Has(s.paneGroups, p, g) <==> Has(s.groupMembers, g, p))
    && (forall p | p in s.paneGroups :: s.paneGroups[p] != {})
    && (forall g | g in s.groupMembers :: s.groupMembers[g] != {})
  }

  lemma AddHas<K, V>(m: map<K, set<V>>, k: K, v: V)
    ensures forall x, y :: Has(AddTo(m, k, v), x, y) <==> Has(m, x, y) || (x == k && y == v)
  {
  }

  lemma RemoveHas<K, V>(m: map<K, set<V>>, k: K, v: V)
    ensures forall x, y :: Has(RemoveFrom(m, k, v), x, y) <==> Has(m, x, y) && !(x == k && y == v)
    ensures (forall x | x in m :: m[x] != {}) ==> forall x | x in RemoveFrom(m, k, v) :: RemoveFrom(m, k, v)[x] != {}
  {
    if k in m {
      assert forall y | y in m[k] :: y == v || y in m[k] - {v};
    }
  }

  lemma JoinKeepsInverse(s: BusState, pane: PaneName, group: GroupName)
    requires Inverse(s)
    ensures Inverse(Join(s, pane, group))
  {
    AddHas(s.groupMembers, group, pane);
    AddHas(s.paneGroups, pane, group);
    hide Has;
  }

  lemma LeaveKeepsInverse(s: BusState, pane: PaneName, group: GroupName)
    requires Inverse(s)
    ensures Inverse(Leave(s, pane, group))
  {
    RemoveHas(s.groupMembers, group, pane);
    RemoveHas(s.paneGroups, pane, group);
    hide Has, RemoveFrom;
  }

  lemma RemovePaneKeepsInverse(s: BusState, pane: PaneName)
    requires Inverse(s)
    ensures Inverse(RemovePane(s, pane))
    ensures forall p, g :: Has(RemovePane(s, pane).paneGroups, p, g) <==> Has(s.paneGroups, p, g) && p != pane
  {
    var t := RemovePane(s, pane);
    forall g, p
      ensures Has(t.groupMembers, g, p) <==> Has(s.groupMembers, g, p) && p != pane
    {
      assert Has(s.paneGroups, pane, g) <==> Has(s.groupMembers, g, pane);
      if g in s.groupMembers && p in s.groupMembers[g] && p != pane {
        assert p in s.groupMembers[g] - {pane};
      }
    }
  }

  // ----- re-keying -----

  function Rename(p: PaneName, old_: PaneName, new_: PaneName): PaneName {
    if p == old_ then new_ else p
  }

  /** Every occurrence of `old_` replaced by `new_`, in keys and in members. */
  function RenameEverywhere(s: BusState, old_: PaneName, new_: PaneName): BusState {
    BusState(MoveKey(s.inboxes, old_, new_), MoveKey(s.paneGroups, old_, new_),
             map g | g in s.groupMembers :: set p | p in s.groupMembers[g] :: Rename(p, old_, new_))
  }

  lemma RenameMembers(members: set<PaneName>, old_: PaneName, new_: PaneName)
    ensures (set p | p in members :: Rename(p, old_, new_)) == if old_ in members then members - {old_} + {new_} else members
  {
    var renamed := set p | p in members :: Rename(p, old_, new_);
    var expected := if old_ in members then members - {old_} + {new_} else members;
    forall q
      ensures q in renamed <==> q in expected
    {
      if q in expected {
        assert Rename(if q in members && q != old_ then q else old_, old_, new_) == q;
      }
      if q in renamed {
        var p :| p in members && Rename(p, old_, new_) == q;
      }
    }
  }

  lemma RenameGroups(t: BusState, old_: PaneName, new_: PaneName)
    requires forall g :: Has(t.paneGroups, old_, g) <==> Has(t.groupMembers, g, old_)
    ensures ReplaceIn(t.groupMembers, SetOf(t.paneGroups, old_), old_, new_) == RenameEverywhere(t, old_, new_).groupMembers
  {
    var groups := SetOf(t.paneGroups, old_);
    assert forall g :: g in groups <==> Has(t.paneGroups, old_, g);
    hide Rename;
    forall g | g in t.groupMembers
      ensures (if g in groups then t.groupMembers[g] - {old_} + {new_} else t.groupMembers[g])
              == set p | p in t.groupMembers[g] :: Rename(p, old_, new_)
    {
      RenameMembers(t.groupMembers[g], old_, new_);
      assert Has(t.groupMembers, g, old_) <==> old_ in t.groupMembers[g];
    }
  }

  /** Re-keying is discarding the new pane's state and then renaming the old one everywhere. */
  lemma RekeyIsRename(s: BusState, old_: PaneName, new_: PaneName)
    requires Inverse(s) && old_ != new_
    ensures Rekey(s, old_, new_) == RenameEverywhere(RemovePane(s, new_), old_, new_)
  {
    RemovePaneKeepsInverse(s, new_);
    hide RemovePane, Has, MoveKey, ReplaceIn;
    RenameGroups(RemovePane(s, new_), old_, new_);
  }

  lemma RekeyKeepsInverse(s: BusState, old_: PaneName, new_: PaneName)
    requires Inverse(s)
    ensures Inverse(Rekey(s, old_, new_))
  {
    if old_ != new_ {
      var t := RemovePane(s, new_);
      RemovePaneKeepsInverse(s, new_);
      hide RemovePane;
      var u := Rekey(s, old_, new_);
      assert new_ !in t.paneGroups by { NoGroups(s, new_); }
      forall p, g
        ensures Has(u.paneGroups, p, g) <==> Has(u.groupMembers, g, p)
      {
        assert Has(t.paneGroups, p, g) <==> Has(t.groupMembers, g, p);
        assert Has(t.paneGroups, old_, g) <==> Has(t.groupMembers, g, old_);
        assert !Has(t.paneGroups, new_, g);
      }
    }
  }

  lemma NoGroups(s: BusState, pane: PaneName)
    ensures pane !in RemovePane(s, pane).paneGroups
  {
  }

  /** A change to one pane's inbox commutes with moving it. */
  lemma RekeyOneInbox(s: BusState, old_: PaneName, new_: PaneName, inbox: InboxState)
    requires old_ != new_
    ensures Rekey(s.(inboxes := s.inboxes[old_ := inbox]), old_, new_)
            == Rekey(s, old_, new_).(inboxes := Rekey(s, old_, new_).inboxes[new_ := inbox])
    ensures new_ in Rekey(s, old_, new_).inboxes <==> old_ in s.inboxes
    ensures InboxOf(Rekey(s, old_, new_), new_) == InboxOf(s, old_)
  {
    hide RemoveFromAll, ReplaceIn;
  }

  /** Delivering to the pane commutes with re-keying it. */
  lemma RekeyDeliver(s: BusState, old_: PaneName, new_: PaneName, msg: StoredMsg)
    requires old_ != new_
    ensures Rekey(Deliver(s, old_, msg), old_, new_) == Deliver(Rekey(s, old_, new_), new_, msg)
  {
    hide DeliverTo, Rekey, InboxOf;
    RekeyOneInbox(s, old_, new_, DeliverTo(InboxOf(s, old_), msg));
  }

  /** So does acknowledging. */
  lemma RekeyAck(s: BusState, old_: PaneName, new_: PaneName, upTo: nat)
    requires old_ != new_
    ensures Rekey(Ack(s, old_, upTo), old_, new_) == Ack(Rekey(s, old_, new_), new_, upTo)
  {
    hide AckUpTo, Rekey;
    if old_ in s.inboxes {
      RekeyOneInbox(s, old_, new_, AckUpTo(s.inboxes[old_], upTo));
    } else {
      RekeyOneInbox(s, old_, new_, NEW_INBOX);
    }
  }

  /** Two bus states with the same inboxes and the same membership relation, and no empty sets, are equal. */
  lemma SameMembership(s: BusState, t: BusState)
    requires Inverse(s) && Inverse(t) && s.inboxes == t.inboxes
    requires forall p, g :: Has(s.paneGroups, p, g) <==> Has(t.paneGroups, p, g)
    ensures s == t
  {
    SameRelation(s.paneGroups, t.paneGroups);
    forall g, p
      ensures Has(s.groupMembers, g, p) <==> Has(t.groupMembers, g, p)
    {
      assert Has(s.paneGroups, p, g) <==> Has(s.groupMembers, g, p);
      assert Has(t.paneGroups, p, g) <==> Has(t.groupMembers, g, p);
    }
    SameRelation(s.groupMembers, t.groupMembers);
  }

  lemma SameRelation<K(!new), V(!new)>(m: map<K, set<V>>, n: map<K, set<V>>)
    requires forall k | k in m :: m[k] != {}
    requires forall k | k in n :: n[k] != {}
    requires forall k, v :: Has(m, k, v) <==> Has(n, k, v)
    ensures m == n
  {
    forall k | k in m ensures k in n && m[k] == n[k] {
      var v :| v in m[k];
      assert Has(m, k, v) && Has(n, k, v);
      assert forall w :: w in m[k] <==> Has(m, k, w);
      assert forall w :: w in n[k] <==> Has(n, k, w);
    }
    forall k | k in n ensures k in m {
      var v :| v in n[k];
      assert Has(n, k, v) && Has(m, k, v);
    }
  }

  /** The membership relation after re-keying. */
  lemma RekeyHas(s: BusState, old_: PaneName, new_: PaneName)
    requires Inverse(s) && old_ != new_
    ensures forall p, g ::
              Has(Rekey(s, old_, new_).paneGroups, p, g) <==>
              if p == new_ then Has(s.paneGroups, old_, g) else p != old_ && Has(s.paneGroups, p, g)
  {
    RemovePaneKeepsInverse(s, new_);
    var t := RemovePane(s, new_);
    NoGroups(s, new_);
    hide RemovePane;
    assert forall p, g :: Has(MoveKey(t.paneGroups, old_, new_), p, g) <==>
                          if p == new_ then Has(t.paneGroups, old_, g) else p != old_ && Has(t.paneGroups, p, g);
  }

  /** Changing one membership of the pane before re-keying it amounts to the same change of the renamed pane afterwards. */
  lemma RekeyChanged(s: BusState, changed: BusState, old_: PaneName, new_: PaneName, result: BusState, g0: GroupName, added: bool)
    requires old_ != new_ && Inverse(s) && Inverse(changed) && Inverse(result)
    requires forall p, g :: Has(changed.paneGroups, p, g) <==>
                            if p == old_ && g == g0 then added else Has(s.paneGroups, p, g)
    requires forall p, g :: Has(result.paneGroups, p, g) <==>
                            if p == new_ && g == g0 then added else Has(Rekey(s, old_, new_).paneGroups, p, g)
    requires result.inboxes == Rekey(changed, old_, new_).inboxes
    ensures Rekey(changed, old_, new_) == result
  {
    hide Has, Rekey, Inverse;
    RekeyKeepsInverse(changed, old_, new_);
    RekeyHas(s, old_, new_);
    RekeyHas(changed, old_, new_);
    SameMembership(Rekey(changed, old_, new_), result);
  }

  lemma RekeyInboxes(s: BusState, old_: PaneName, new_: PaneName)
    ensures Rekey(s, old_, new_).inboxes == if old_ == new_ then s.inboxes else MoveKey(s.inboxes - {new_}, old_, new_)
  {
  }

  /** Joining a group commutes with re-keying the pane. */
  lemma RekeyJoin(s: BusState, old_: PaneName, new_: PaneName, group: GroupName)
    requires Inverse(s) && old_ != new_
    ensures Rekey(Join(s, old_, group), old_, new_) == Join(Rekey(s, old_, new_), new_, group)
  {
    hide Has, Rekey, Inverse, AddTo, MoveKey;
    var t := Rekey(s, old_, new_);
    JoinKeepsInverse(s, old_, group);
    RekeyKeepsInverse(s, old_, new_);
    JoinKeepsInverse(t, new_, group);
    AddHas(s.paneGroups, old_, group);
    AddHas(t.paneGroups, new_, group);
    RekeyInboxes(s, old_, new_);
    RekeyInboxes(Join(s, old_, group), old_, new_);
    if IsGroupName(group) {
      RekeyChanged(s, Join(s, old_, group), old_, new_, Join(t, new_, group), group, true);
    }
  }

  /** Leaving a group commutes with re-keying the pane. */
  lemma RekeyLeave(s: BusState, old_: PaneName, new_: PaneName, group: GroupName)
    requires Inverse(s) && old_ != new_
    ensures Rekey(Leave(s, old_, group), old_, new_) == Leave(Rekey(s, old_, new_), new_, group)
  {
    hide Has, Rekey, Inverse, RemoveFrom, MoveKey;
    var t := Rekey(s, old_, new_);
    LeaveKeepsInverse(s, old_, group);
    RekeyKeepsInverse(s, old_, new_);
    LeaveKeepsInverse(t, new_, group);
    RemoveHas(s.paneGroups, old_, group);
    RemoveHas(t.paneGroups, new_, group);
    RekeyInboxes(s, old_, new_);
    RekeyInboxes(Leave(s, old_, group), old_, new_);
    if IsGroupName(group) {
      RekeyChanged(s, Leave(s, old_, group), old_, new_, Leave(t, new_, group), group, false);
    }
  }

  // ----- runs -----

  datatype Op =
    | DeliverOp(pane: PaneName, msg: StoredMsg)
    | AckOp(pane: PaneName, upTo: nat)
    | JoinOp(pane: PaneName, group: GroupName)
    | LeaveOp(pane: PaneName, group: GroupName)
    | RekeyOp(old_: PaneName, new_: PaneName)
    | RemoveOp(pane: PaneName)

  function Apply(s: BusState, op: Op): BusState {
    match op
    case DeliverOp(pane, msg) => Deliver(s, pane, msg)
    case AckOp(pane, upTo) => Ack(s, pane, upTo)
    case JoinOp(pane, group) => Join(s, pane, group)
    case LeaveOp(pane, group) => Leave(s, pane, group)
    case RekeyOp(old_, new_) => Rekey(s, old_, new_)
    case RemoveOp(pane) => RemovePane(s, pane)
  }

  function Run(s: BusState, ops: seq<Op>): BusState
    decreases |ops|
  {
    if ops == [] then s else Run(Apply(s, ops[0]), ops[1..])
  }

  type Logs = map<PaneName, seq<StoredMsg>>

  /** What was ever delivered to each pane; a re-keyed pane takes its log along. */
  function LogAfter(logs: Logs, op: Op): Logs {
    match op
    case DeliverOp(pane, msg) =>
      if |msg.body| > MAX_MESSAGE_BODY_BYTES then logs
      else
        var log := if pane in logs then logs[pane] else [];
        logs[pane := log + [msg.(seqNo := |log| + 1)]]
    case RekeyOp(old_, new_) => if old_ == new_ then logs else MoveKey(logs - {new_}, old_, new_)
    case RemoveOp(pane) => logs - {pane}
    case _ => logs
  }

  function RunLogs(logs: Logs, ops: seq<Op>): Logs
    decreases |ops|
  {
    if ops == [] then logs else RunLogs(LogAfter(logs, ops[0]), ops[1..])
  }

  ghost predicate BusRetains(s: BusState, logs: Logs) {
    s.inboxes.Keys == logs.Keys && forall p | p in logs :: Retains(s.inboxes[p], logs[p])
  }

  lemma ApplyKeepsInverse(s: BusState, op: Op)
    requires Inverse(s)
    ensures Inverse(Apply(s, op))
  {
    match op {
      case DeliverOp(_, _) =>
      case AckOp(_, _) =>
      case JoinOp(pane, group) => JoinKeepsInverse(s, pane, group);
      case LeaveOp(pane, group) => LeaveKeepsInverse(s, pane, group);
      case RekeyOp(old_, new_) => RekeyKeepsInverse(s, old_, new_);
      case RemoveOp(pane) => RemovePaneKeepsInverse(s, pane);
    }
  }

  lemma NewInboxRetains()
    ensures Retains(NEW_INBOX, [])
  {
  }

  lemma DeliverOpRetains(s: BusState, logs: Logs, pane: PaneName, msg: StoredMsg)
    requires BusRetains(s, logs)
    ensures BusRetains(Deliver(s, pane, msg), LogAfter(logs, DeliverOp(pane, msg)))
  {
    hide DeliverTo, Retains;
    var log := if pane in logs then logs[pane] else [];
    NewInboxRetains();
    if |msg.body| <= MAX_MESSAGE_BODY_BYTES {
      DeliverRetains(InboxOf(s, pane), log, msg);
    }
  }

  lemma AckOpRetains(s: BusState, logs: Logs, pane: PaneName, upTo: nat)
    requires BusRetains(s, logs)
    ensures BusRetains(Ack(s, pane, upTo), logs)
  {
    hide AckUpTo, Retains;
    assert pane in s.inboxes <==> pane in logs;
    if pane in logs {
      AckRetains(s.inboxes[pane], logs[pane], upTo);
    }
  }

  lemma RemoveOpRetains(s: BusState, logs: Logs, pane: PaneName)
    requires BusRetains(s, logs)
    ensures BusRetains(RemovePane(s, pane), logs - {pane})
  {
    hide Retains, RemoveFromAll;
  }

  lemma MoveRetains(inboxes: map<PaneName, InboxState>, logs: Logs, old_: PaneName, new_: PaneName)
    requires inboxes.Keys == logs.Keys && forall p | p in logs :: Retains(inboxes[p], logs[p])
    ensures MoveKey(inboxes, old_, new_).Keys == MoveKey(logs, old_, new_).Keys
    ensures forall p | p in MoveKey(logs, old_, new_) :: Retains(MoveKey(inboxes, old_, new_)[p], MoveKey(logs, old_, new_)[p])
  {
    hide Retains;
    assert old_ in inboxes <==> old_ in logs;
  }

  lemma RekeyOpRetains(s: BusState, logs: Logs, old_: PaneName, new_: PaneName)
    requires BusRetains(s, logs)
    ensures BusRetains(Rekey(s, old_, new_), LogAfter(logs, RekeyOp(old_, new_)))
  {
    hide Retains, RemovePane, ReplaceIn, MoveKey;
    if old_ != new_ {
      RemoveOpRetains(s, logs, new_);
      MoveRetains(RemovePane(s, new_).inboxes, logs - {new_}, old_, new_);
    }
  }

  lemma ApplyRetains(s: BusState, logs: Logs, op: Op)
    requires BusRetains(s, logs)
    ensures BusRetains(Apply(s, op), LogAfter(logs, op))
  {
    hide Deliver, Ack, Rekey, RemovePane, Retains;
    match op {
      case DeliverOp(pane, msg) => DeliverOpRetains(s, logs, pane, msg);
      case AckOp(pane, upTo) => AckOpRetains(s, logs, pane, upTo);
      case RekeyOp(old_, new_) => RekeyOpRetains(s, logs, old_, new_);
      case RemoveOp(pane) => RemoveOpRetains(s, logs, pane);
      case JoinOp(_, _) =>
      case LeaveOp(_, _) =>
    }
  }

  /** In every reachable state each inbox obeys the retention law for its own log and the group indexes are inverse. */
  lemma {:induction false} RunKeeps(s: BusState, logs: Logs, ops: seq<Op>)
    requires BusRetains(s, logs) && Inverse(s)
    ensures BusRetains(Run(s, ops), RunLogs(logs, ops))
    ensures Inverse(Run(s, ops))
    decreases |ops|
  {
    hide Apply, LogAfter, BusRetains, Inverse;
    if ops != [] {
      ApplyKeepsInverse(s, ops[0]);
      ApplyRetains(s, logs, ops[0]);
      RunKeeps(Apply(s, ops[0]), LogAfter(logs, ops[0]), ops[1..]);
    }
  }

  /** The bus starts within both laws. */
  lemma EmptyBusKeeps(ops: seq<Op>)
    ensures BusRetains(Run(EMPTY_BUS, ops), RunLogs(map[], ops)) && Inverse(Run(EMPTY_BUS, ops))
  {
    assert BusRetains(EMPTY_BUS, map[]) && Inverse(EMPTY_BUS);
    hide BusRetains, Inverse;
    RunKeeps(EMPTY_BUS, map[], ops);
  }
}
