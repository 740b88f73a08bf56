/**
 The message bus: capped per-pane inboxes with read cursors, a two-way group index, and the
 re-keying of a pane. Transitions are functions on bus states; the classes perform them in place.
 */
module Msg {
  import opened Options
  import opened Bytes

  const MAX_INBOX_MESSAGES: nat := 500
  const MAX_INBOX_BODY_BYTES: nat := 4 * 1024 * 1024
  const MAX_MESSAGE_BODY_BYTES: nat := 64 * 1024

  type PaneName = string
  type GroupName = string

  datatype StoredMsg = StoredMsg(
    seqNo: nat,
    fromPane: Option<string>,
    fromWorkspace: Option<string>,
    fromLabel: string,
    to: string,
    body: bytes,
    timestamp: string)

  datatype MsgError = MessageTooLarge | InvalidGroupName(group: string)

  datatype Result<+T> = Ok(value: T) | Err(error: MsgError)

  // ----- one inbox -----

  datatype InboxState = InboxState(messages: seq<StoredMsg>, nextSeq: nat, ackSeq: nat, dropped: nat, totalBytes: nat)

  const NEW_INBOX: InboxState := InboxState([], 1, 0, 0, 0)

  function DropOldest(s: InboxState): InboxState {
    if s.messages == [] then s
    else
      var size := |s.messages[0].body|;
      s.(messages := s.messages[1..], dropped := s.dropped + 1,
         totalBytes := if s.totalBytes < size then 0 else s.totalBytes - size)
  }

  predicate OverCaps(s: InboxState) {
    |s.messages| > MAX_INBOX_MESSAGES || s.totalBytes > MAX_INBOX_BODY_BYTES
  }

  function EnforceCaps(s: InboxState): InboxState
    decreases |s.messages|
  {
    if OverCaps(s) && s.messages != [] then EnforceCaps(DropOldest(s)) else s
  }

  /** Stamps the next sequence number and appends, before the caps are enforced. */
  function Append(s: InboxState, msg: StoredMsg): InboxState {
    s.(messages := s.messages + [msg.(seqNo := s.nextSeq)], nextSeq := s.nextSeq + 1, totalBytes := s.totalBytes + |msg.body|)
  }

  function DeliverTo(s: InboxState, msg: StoredMsg): InboxState {
    EnforceCaps(Append(s, msg))
  }

  function NewestSeq(s: InboxState): nat {
    if s.messages == [] then 0 else s.messages[|s.messages| - 1].seqNo
  }

  function AckUpTo(s: InboxState, upTo: nat): InboxState {
    var clamped := if upTo < NewestSeq(s) then upTo else NewestSeq(s);
    if clamped > s.ackSeq then s.(ackSeq := clamped) else s
  }

  function CountUnread(messages: seq<StoredMsg>, ack: nat): nat {
    if messages == [] then 0
    else (if messages[0].seqNo > ack then 1 else 0) + CountUnread(messages[1..], ack)
  }

  predicate Listed(m: StoredMsg, after: Option<nat>, includeRead: bool, ack: nat) {
    && (after.Some? ==> m.seqNo > after.value)
    && (includeRead || m.seqNo > ack)
  }

  function ListMessages(messages: seq<StoredMsg>, after: Option<nat>, includeRead: bool, ack: nat): seq<StoredMsg> {
    if messages == [] then []
    else
      (if Listed(messages[0], after, includeRead, ack) then [messages[0]] else [])
      + ListMessages(messages[1..], after, includeRead, ack)
  }

  lemma ListStep(front: seq<StoredMsg>, messages: seq<StoredMsg>, i: nat, after: Option<nat>, includeRead: bool, ack: nat)
    requires i < |messages|
    ensures front + ListMessages(messages[i..], after, includeRead, ack)
            == (if Listed(messages[i], after, includeRead, ack) then front + [messages[i]] else front)
               + ListMessages(messages[i + 1..], after, includeRead, ack)
  {
    hide Listed;
    assert messages[i..][1..] == messages[i + 1..];
  }

  class Inbox {
    var messages: seq<StoredMsg>
    var nextSeq: nat
    var ackSeq: nat
    var dropped: nat
    var totalBodyBytes: nat

    ghost function View(): InboxState
      reads this
    {
      InboxState(messages, nextSeq, ackSeq, dropped, totalBodyBytes)
    }

    constructor ()
      ensures View() == NEW_INBOX
    {
      messages, nextSeq, ackSeq, dropped, totalBodyBytes := [], 1, 0, 0, 0;
    }

    method Unread() returns (n: nat)
      ensures n == CountUnread(messages, ackSeq)
    {
      n := 0;
      var i := 0;
      while i < |messages|
        invariant 0 <= i <= |messages|
        invariant n + CountUnread(messages[i..], ackSeq) == CountUnread(messages, ackSeq)
      {
        assert messages[i..][1..] == messages[i + 1..];
        n := n + if messages[i].seqNo > ackSeq then 1 else 0;
        i := i + 1;
      }
    }

    method Select(after: Option<nat>, includeRead: bool) returns (listed: seq<StoredMsg>)
      ensures listed == ListMessages(messages, after, includeRead, ackSeq)
    {
      listed := [];
      var i := 0;
      while i < |messages|
        invariant 0 <= i <= |messages|
        invariant listed + ListMessages(messages[i..], after, includeRead, ackSeq)
                  == ListMessages(messages, after, includeRead, ackSeq)
      {
        hide Listed, ListMessages;
        ListStep(listed, messages, i, after, includeRead, ackSeq);
        if Listed(messages[i], after, includeRead, ackSeq) {
          listed := listed + [messages[i]];
        }
        i := i + 1;
      }
    }

    method DropOldestMessage()
      modifies this
      ensures View() == DropOldest(old(View()))
    {
      if messages != [] {
        var size := |messages[0].body|;
        messages := messages[1..];
        totalBodyBytes := if totalBodyBytes < size then 0 else totalBodyBytes - size;
        dropped := dropped + 1;
      }
    }

    method EnforceInboxCaps()
      modifies this
      ensures View() == EnforceCaps(old(View()))
    {
      while |messages| > MAX_INBOX_MESSAGES || totalBodyBytes > MAX_INBOX_BODY_BYTES
        invariant EnforceCaps(View()) == EnforceCaps(old(View()))
        decreases |messages|
      {
        if messages == [] {
          break;
        }
        DropOldestMessage();
      }
    }

    method Accept(msg: StoredMsg)
      modifies this
      ensures View() == DeliverTo(old(View()), msg)
    {
      var stamped := msg.(seqNo := nextSeq);
      nextSeq := nextSeq + 1;
      totalBodyBytes := totalBodyBytes + |msg.body|;
      messages := messages + [stamped];
      EnforceInboxCaps();
    }

    method Acknowledge(upTo: nat)
      modifies this
      ensures View() == AckUpTo(old(View()), upTo)
    {
      var newest := if messages == [] then 0 else messages[|messages| - 1].seqNo;
      var clamped := if upTo < newest then upTo else newest;
      if clamped > ackSeq {
        ackSeq := clamped;
      }
    }
  }

  // ----- the bus -----

  datatype BusState = BusState(
    inboxes: map<PaneName, InboxState>,
    paneGroups: map<PaneName, set<GroupName>>,
    groupMembers: map<GroupName, set<PaneName>>)

  const EMPTY_BUS: BusState := BusState(map[], map[], map[])

  function InboxOf(s: BusState, pane: PaneName): InboxState {
    if pane in s.inboxes then s.inboxes[pane] else NEW_INBOX
  }

  function Deliver(s: BusState, pane: PaneName, msg: StoredMsg): BusState {
    if |msg.body| > MAX_MESSAGE_BODY_BYTES then s
    else s.(inboxes := s.inboxes[pane := DeliverTo(InboxOf(s, pane), msg)])
  }

  function Ack(s: BusState, pane: PaneName, upTo: nat): BusState {
    if pane in s.inboxes then s.(inboxes := s.inboxes[pane := AckUpTo(s.inboxes[pane], upTo)]) else s
  }

  predicate IsGroupName(group: GroupName) {
    group != "" && '/' !in group && group[0] != '@'
  }

  function SetOf<K, V>(m: map<K, set<V>>, k: K): set<V> {
    if k in m then m[k] else {}
  }

  /** Adds to one of a map's sets, creating it. */
  function AddTo<K, V>(m: map<K, set<V>>, k: K, v: V): map<K, set<V>> {
    m[k := SetOf(m, k) + {v}]
  }

  /** Removes from one of a map's sets, dropping the set when that empties it. */
  function RemoveFrom<K, V>(m: map<K, set<V>>, k: K, v: V): map<K, set<V>> {
    if k !in m then m
    else if m[k] - {v} == {} then m - {k}
    else m[k := m[k] - {v}]
  }

  function Join(s: BusState, pane: PaneName, group: GroupName): BusState {
    if !IsGroupName(group) then s
    else s.(groupMembers := AddTo(s.groupMembers, group, pane), paneGroups := AddTo(s.paneGroups, pane, group))
  }

  function Leave(s: BusState, pane: PaneName, group: GroupName): BusState {
    if !IsGroupName(group) then s
    else s.(groupMembers := RemoveFrom(s.groupMembers, group, pane), paneGroups := RemoveFrom(s.paneGroups, pane, group))
  }

  function RemoveFromAll(members: map<GroupName, set<PaneName>>, groups: set<GroupName>, pane: PaneName): map<GroupName, set<PaneName>> {
    map g | g in members && !(g in groups && members[g] - {pane} == {}) ::
      if g in groups then members[g] - {pane} else members[g]
  }

  function RemovePane(s: BusState, pane: PaneName): BusState {
    BusState(s.inboxes - {pane}, s.paneGroups - {pane}, RemoveFromAll(s.groupMembers, SetOf(s.paneGroups, pane), pane))
  }

  function MoveKey<V>(m: map<PaneName, V>, old_: PaneName, new_: PaneName): map<PaneName, V> {
    if old_ in m then (m - {old_})[new_ := m[old_]] else m
  }

  function ReplaceIn(members: map<GroupName, set<PaneName>>, groups: set<GroupName>, old_: PaneName, new_: PaneName): map<GroupName, set<PaneName>> {
    map g | g in members :: if g in groups then members[g] - {old_} + {new_} else members[g]
  }

  function Rekey(s: BusState, old_: PaneName, new_: PaneName): BusState {
    if old_ == new_ then s
    else
      var t := RemovePane(s, new_);
      BusState(MoveKey(t.inboxes, old_, new_), MoveKey(t.paneGroups, old_, new_),
               ReplaceIn(t.groupMembers, SetOf(t.paneGroups, old_), old_, new_))
  }

  /** Moving a key moves its value and keeps every other. */
  lemma MoveKeyValues<V>(m: map<PaneName, V>, old_: PaneName, new_: PaneName)
    requires old_ != new_ && new_ !in m
    ensures MoveKey(m, old_, new_).Keys == if old_ in m then m.Keys - {old_} + {new_} else m.Keys
    ensures forall p | p in MoveKey(m, old_, new_) :: MoveKey(m, old_, new_)[p] == m[if p == new_ then old_ else p]
    ensures MoveKey(m, old_, new_).Values <= m.Values
  {
  }

  class MsgBus {
    var inboxes: map<PaneName, Inbox>
    var paneGroups: map<PaneName, set<GroupName>>
    var groupMembers: map<GroupName, set<PaneName>>

    /** No two panes share an inbox object. */
    ghost predicate Valid()
      reads this
    {
      forall p, q | p in inboxes && q in inboxes && p != q :: inboxes[p] != inboxes[q]
    }

    ghost function View(): BusState
      reads this, inboxes.Values
    {
      BusState(map p | p in inboxes :: inboxes[p].View(), paneGroups, groupMembers)
    }

    constructor ()
      ensures Valid() && View() == EMPTY_BUS && inboxes == map[]
    {
      inboxes, paneGroups, groupMembers := map[], map[], map[];
    }

    method DeliverMessage(pane: PaneName, msg: StoredMsg) returns (r: Result<()>)
      requires Valid()
      modifies this, inboxes.Values
      ensures Valid() && fresh(inboxes.Values - old(inboxes.Values))
      ensures View() == Deliver(old(View()), pane, msg)
      ensures r == if |msg.body| > MAX_MESSAGE_BODY_BYTES then Err(MessageTooLarge) else Ok(())
    {
      hide DeliverTo;
      if |msg.body| > MAX_MESSAGE_BODY_BYTES {
        return Err(MessageTooLarge);
      }
      EnsureInbox(pane);
      AcceptFor(pane, msg);
      return Ok(());
    }

    /** Only the pane's own inbox takes the message. */
    method AcceptFor(pane: PaneName, msg: StoredMsg)
      requires Valid() && pane in inboxes
      modifies inboxes[pane]
      ensures View() == old(View()).(inboxes := old(View()).inboxes[pane := DeliverTo(old(View()).inboxes[pane], msg)])
    {
      hide DeliverTo;
      inboxes[pane].Accept(msg);
    }

    /** Creates the pane's inbox on first use. */
    method EnsureInbox(pane: PaneName)
      requires Valid()
      modifies `inboxes
      ensures Valid() && fresh(inboxes.Values - old(inboxes.Values)) && pane in inboxes
      ensures View() == old(View()).(inboxes := old(View()).inboxes[pane := InboxOf(old(View()), pane)])
    {
      if pane !in inboxes {
        var created := new Inbox();
        inboxes := inboxes[pane := created];
      }
    }

    method AckMessages(pane: PaneName, upTo: nat) returns (ack: nat)
      requires Valid()
      modifies inboxes.Values
      ensures View() == Ack(old(View()), pane, upTo)
      ensures ack == if pane in inboxes then View().inboxes[pane].ackSeq else 0
    {
      if pane !in inboxes {
        return 0;
      }
      inboxes[pane].Acknowledge(upTo);
      ack := inboxes[pane].ackSeq;
    }

    method List(pane: PaneName, after: Option<nat>, includeRead: bool)
      returns (listed: seq<StoredMsg>, unread: nat, dropped: nat, ack: nat)
      ensures pane !in inboxes ==> listed == [] && unread == 0 && dropped == 0 && ack == 0
      ensures pane in inboxes ==>
                var s := View().inboxes[pane];
                && listed == ListMessages(s.messages, after, includeRead, s.ackSeq)
                && unread == CountUnread(s.messages, s.ackSeq) && dropped == s.dropped && ack == s.ackSeq
    {
      if pane !in inboxes {
        return [], 0, 0, 0;
      }
      var inbox := inboxes[pane];
      listed := inbox.Select(after, includeRead);
      unread := inbox.Unread();
      dropped, ack := inbox.dropped, inbox.ackSeq;
    }

    method GroupJoin(pane: PaneName, group: GroupName) returns (r: Result<set<GroupName>>)
      modifies `paneGroups, `groupMembers
      ensures View() == Join(old(View()), pane, group)
      ensures r == if IsGroupName(group) then Ok(SetOf(paneGroups, pane)) else Err(InvalidGroupName(group))
    {
      if !IsGroupName(group) {
        return Err(InvalidGroupName(group));
      }
      groupMembers := AddTo(groupMembers, group, pane);
      paneGroups := AddTo(paneGroups, pane, group);
      return Ok(SetOf(paneGroups, pane));
    }

    method GroupLeave(pane: PaneName, group: GroupName) returns (r: Result<set<GroupName>>)
      modifies `paneGroups, `groupMembers
      ensures View() == Leave(old(View()), pane, group)
      ensures r == if IsGroupName(group) then Ok(SetOf(paneGroups, pane)) else Err(InvalidGroupName(group))
    {
      if !IsGroupName(group) {
        return Err(InvalidGroupName(group));
      }
      groupMembers := RemoveFrom(groupMembers, group, pane);
      paneGroups := RemoveFrom(paneGroups, pane, group);
      return Ok(SetOf(paneGroups, pane));
    }

    method RemovePaneState(pane: PaneName)
      requires Valid()
      modifies this
      ensures Valid() && inboxes == old(inboxes) - {pane}
      ensures View() == RemovePane(old(View()), pane)
    {
      hide RemoveFromAll;
      DropInbox(pane);
      var groups := SetOf(paneGroups, pane);
      paneGroups := paneGroups - {pane};
      RemoveFromGroups(groups, pane);
    }

    method DropInbox(pane: PaneName)
      requires Valid()
      modifies `inboxes
      ensures Valid() && inboxes == old(inboxes) - {pane}
      ensures View().inboxes == old(View()).inboxes - {pane}
    {
      inboxes := inboxes - {pane};
    }

    method RemoveFromGroups(groups: set<GroupName>, pane: PaneName)
      modifies `groupMembers
      ensures groupMembers == RemoveFromAll(old(groupMembers), groups, pane)
    {
      ghost var members := groupMembers;
      var left := groups;
      assert groupMembers == RemoveFromAll(members, groups - left, pane);
      while left != {}
        invariant left <= groups
        invariant groupMembers == RemoveFromAll(members, groups - left, pane)
      {
        hide RemoveFromAll;
        var group :| group in left;
        RemoveOneMore(members, groups - left, group, pane);
        assert groups - (left - {group}) == groups - left + {group};
        if group in groupMembers {
          var rest := groupMembers[group] - {pane};
          groupMembers := if rest == {} then groupMembers - {group} else groupMembers[group := rest];
        }
        left := left - {group};
      }
      assert groups - {} == groups;
    }

    method RekeyPane(old_: PaneName, new_: PaneName)
      requires Valid()
      modifies this
      ensures Valid() && inboxes.Values <= old(inboxes).Values
      ensures View() == Rekey(old(View()), old_, new_)
    {
      hide RemovePane, ReplaceIn;
      if old_ == new_ {
        return;
      }
      RemovePaneState(new_);
      ghost var t := View();
      MoveInbox(old_, new_);
      var groups := MoveGroups(old_, new_);
      hide MoveKey;
      ReplaceInGroups(groups, old_, new_);
      assert View() == BusState(MoveKey(t.inboxes, old_, new_), MoveKey(t.paneGroups, old_, new_),
                                ReplaceIn(t.groupMembers, SetOf(t.paneGroups, old_), old_, new_));
    }

    method MoveInbox(old_: PaneName, new_: PaneName)
      requires Valid() && old_ != new_ && new_ !in inboxes
      modifies `inboxes
      ensures Valid() && inboxes.Values <= old(inboxes).Values
      ensures View().inboxes == MoveKey(old(View()).inboxes, old_, new_)
    {
      MoveKeyValues(inboxes, old_, new_);
      if old_ in inboxes {
        inboxes := (inboxes - {old_})[new_ := inboxes[old_]];
      }
    }

    method MoveGroups(old_: PaneName, new_: PaneName) returns (groups: set<GroupName>)
      modifies `paneGroups
      ensures groups == SetOf(old(paneGroups), old_)
      ensures paneGroups == MoveKey(old(paneGroups), old_, new_)
    {
      groups := SetOf(paneGroups, old_);
      if old_ in paneGroups {
        paneGroups := (paneGroups - {old_})[new_ := groups];
      }
    }

    method ReplaceInGroups(groups: set<GroupName>, old_: PaneName, new_: PaneName)
      modifies `groupMembers
      ensures groupMembers == ReplaceIn(old(groupMembers), groups, old_, new_)
    {
      ghost var members := groupMembers;
      var left := groups;
      assert groupMembers == ReplaceIn(members, groups - left, old_, new_);
      while left != {}
        invariant left <= groups
        invariant groupMembers == ReplaceIn(members, groups - left, old_, new_)
      {
        var group :| group in left;
        assert groups - (left - {group}) == groups - left + {group};
        if group in groupMembers {
          groupMembers := groupMembers[group := groupMembers[group] - {old_} + {new_}];
        }
        left := left - {group};
      }
      assert groups - {} == groups;
    }
  }

  lemma RemoveOneMore(members: map<GroupName, set<PaneName>>, done: set<GroupName>, group: GroupName, pane: PaneName)
    requires group !in done
    ensures var m := RemoveFromAll(members, done, pane);
            RemoveFromAll(members, done + {group}, pane) ==
            if group !in m then m
            else if m[group] - {pane} == {} then m - {group}
            else m[group := m[group] - {pane}]
  {
  }
}
