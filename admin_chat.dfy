/** The bookkeeping of the admin dashboard's chat and order tabs: messages grouped by session,
    sessions ordered by their latest activity, per-session figures, the message view of the
    selected session, the guard on an admin reply, and the order-status figures. */
module AdminChat {

  datatype Option<T> = None | Some(value: T)

  /** A row of the `chat_messages` table; `createdAt` is its time in milliseconds. */
  datatype ChatMessage = ChatMessage(
    id: int,
    sessionId: string,
    message: string,
    senderType: string,
    customerName: Option<string>,
    customerEmail: Option<string>,
    isRead: bool,
    createdAt: int)

  /** The fields of a row of the `orders` table that the dashboard's figures look at. */
  datatype Order = Order(id: int, orderNumber: string, status: string, totalAmount: int)

  /** The messages of one session; the reduce only ever creates a group with a message in it. */
  type Group = g: seq<ChatMessage> | g != [] witness [ChatMessage(0, "", "", "", None, None, false, 0)]

  /** One entry of `Object.entries(sessionGroups)`. */
  datatype Session = Session(id: string, messages: Group)

  /** The message an admin reply posts. */
  datatype Outgoing = Outgoing(sessionId: string, message: string, senderType: string)

  // ---------------------------------------------------------------------------------------
  // Counting

  /** `s.filter(p).length`. */
  function CountWhere<T>(s: seq<T>, p: T -> bool): (n: nat)
    ensures n <= |s|
  {
    if s == [] then 0
    else CountWhere(s[..|s| - 1], p) + (if p(s[|s| - 1]) then 1 else 0)
  }

  lemma CountWhereSnoc<T>(s: seq<T>, x: T, p: T -> bool)
    ensures CountWhere(s + [x], p) == CountWhere(s, p) + (if p(x) then 1 else 0)
  {
    assert (s + [x])[..|s|] == s;
  }

  /** The count is zero exactly when no element satisfies p, and is the whole length exactly
      when every element does. */
  lemma {:induction false} CountWhereExtremes<T>(s: seq<T>, p: T -> bool)
    ensures CountWhere(s, p) == 0 <==> forall i :: 0 <= i < |s| ==> !p(s[i])
    ensures CountWhere(s, p) == |s| <==> forall i :: 0 <= i < |s| ==> p(s[i])
  {
    if s != [] {
      var init := s[..|s| - 1];
      CountWhereExtremes(init, p);
      assert forall i :: 0 <= i < |init| ==> init[i] == s[i];
    }
  }

  /** Two predicates no element satisfies together count at most the whole sequence. */
  lemma {:induction false} CountDisjoint<T>(s: seq<T>, p: T -> bool, q: T -> bool)
    requires forall x :: !(p(x) && q(x))
    ensures CountWhere(s, p) + CountWhere(s, q) <= |s|
  {
    if s != [] {
      CountDisjoint(s[..|s| - 1], p, q);
    }
  }

  // ---------------------------------------------------------------------------------------
  // Grouping, as specifications

  /** The messages of session k, in server order. */
  function OfSession(msgs: seq<ChatMessage>, k: string): (g: seq<ChatMessage>)
    ensures |g| <= |msgs|
  {
    if msgs == [] then []
    else OfSession(msgs[..|msgs| - 1], k) + (if msgs[|msgs| - 1].sessionId == k then [msgs[|msgs| - 1]] else [])
  }

  lemma OfSessionSnoc(msgs: seq<ChatMessage>, m: ChatMessage, k: string)
    ensures OfSession(msgs + [m], k) == OfSession(msgs, k) + (if m.sessionId == k then [m] else [])
  {
    assert (msgs + [m])[..|msgs|] == msgs;
  }

  /** The group of session k holds exactly the messages whose session id is k. */
  lemma {:induction false} OfSessionMembers(msgs: seq<ChatMessage>, k: string, m: ChatMessage)
    ensures m in OfSession(msgs, k) <==> m in msgs && m.sessionId == k
  {
    if msgs != [] {
      var init, last := msgs[..|msgs| - 1], msgs[|msgs| - 1];
      assert msgs == init + [last];
      OfSessionMembers(init, k, m);
    }
  }

  predicate Distinct<T(==)>(s: seq<T>) {
    forall i, j :: 0 <= i < j < |s| ==> s[i] != s[j]
  }

  /** The session ids of the messages, each once, in order of first occurrence: the order in
      which the reduce creates the keys of `sessionGroups`. */
  function SessionIds(msgs: seq<ChatMessage>): (ks: seq<string>)
    ensures |ks| <= |msgs|
  {
    if msgs == [] then []
    else
      var ks := SessionIds(msgs[..|msgs| - 1]);
      if msgs[|msgs| - 1].sessionId in ks then ks else ks + [msgs[|msgs| - 1].sessionId]
  }

  lemma SessionIdsSnoc(msgs: seq<ChatMessage>, m: ChatMessage)
    ensures SessionIds(msgs + [m]) ==
            if m.sessionId in SessionIds(msgs) then SessionIds(msgs) else SessionIds(msgs) + [m.sessionId]
  {
    assert (msgs + [m])[..|msgs|] == msgs;
  }

  /** Each id appears once. */
  lemma {:induction false} SessionIdsDistinct(msgs: seq<ChatMessage>)
    ensures Distinct(SessionIds(msgs))
  {
    if msgs != [] {
      var init, m := msgs[..|msgs| - 1], msgs[|msgs| - 1];
      assert msgs == init + [m];
      SessionIdsDistinct(init);
      SessionIdsSnoc(init, m);
    }
  }

  /** The ids are exactly those of the messages. */
  lemma {:induction false} SessionIdsMembers(msgs: seq<ChatMessage>)
    ensures forall k :: k in SessionIds(msgs) <==> exists i :: 0 <= i < |msgs| && msgs[i].sessionId == k
  {
    if msgs != [] {
      var init, m := msgs[..|msgs| - 1], msgs[|msgs| - 1];
      assert msgs == init + [m];
      SessionIdsMembers(init);
      SessionIdsSnoc(init, m);
      forall k | k in SessionIds(msgs)
        ensures exists i :: 0 <= i < |msgs| && msgs[i].sessionId == k
      {
        if k in SessionIds(init) {
          var i :| 0 <= i < |init| && init[i].sessionId == k;
          assert msgs[i] == init[i];
        } else {
          assert msgs[|msgs| - 1].sessionId == k;
        }
      }
      forall k | exists i :: 0 <= i < |msgs| && msgs[i].sessionId == k
        ensures k in SessionIds(msgs)
      {
        var i :| 0 <= i < |msgs| && msgs[i].sessionId == k;
        if i < |init| {
          assert init[i] == msgs[i];
        }
      }
    }
  }

  /** `groups` (with key order `keys`) is `sessionGroups` for the messages `msgs`. */
  ghost predicate IsGrouping(msgs: seq<ChatMessage>, groups: map<string, seq<ChatMessage>>, keys: seq<string>) {
    && keys == SessionIds(msgs)
    && (forall k :: k in groups <==> k in keys)
    && (forall k :: k in groups ==> groups[k] == OfSession(msgs, k))
  }

  /** A session id no message carries has no messages. */
  lemma NoSessionNoMessages(msgs: seq<ChatMessage>, k: string)
    requires k !in SessionIds(msgs)
    ensures OfSession(msgs, k) == []
  {
    SessionIdsMembers(msgs);
    var g := OfSession(msgs, k);
    if g != [] {
      OfSessionMembers(msgs, k, g[0]);
      assert false;
    }
  }

  // ---------------------------------------------------------------------------------------
  // The reduce that builds sessionGroups

  /** `allMessages.reduce(...)`: each message is pushed onto the array of its session, which
      is created (as the next key of the dictionary) on the session's first message. */
  method GroupBySession(msgs: seq<ChatMessage>) returns (groups: map<string, seq<ChatMessage>>, keys: seq<string>)
    ensures IsGrouping(msgs, groups, keys)
  {
    groups, keys := map[], [];
    for i := 0 to |msgs|
      invariant IsGrouping(msgs[..i], groups, keys)
    {
      var message := msgs[i];
      ghost var groups0, keys0 := groups, keys;
      if message.sessionId !in groups {
        groups := groups[message.sessionId := [message]];
        keys := keys + [message.sessionId];
      } else {
        groups := groups[message.sessionId := groups[message.sessionId] + [message]];
      }
      GroupStep(msgs[..i], groups0, keys0, message);
      assert msgs[..i + 1] == msgs[..i] + [message];
    }
    assert msgs[..|msgs|] == msgs;
  }

  /** One step of the reduce keeps the dictionary the grouping of the messages seen so far. */
  lemma GroupStep(msgs: seq<ChatMessage>, groups: map<string, seq<ChatMessage>>, keys: seq<string>, m: ChatMessage)
    requires IsGrouping(msgs, groups, keys)
    ensures m.sessionId !in groups ==>
              IsGrouping(msgs + [m], groups[m.sessionId := [m]], keys + [m.sessionId])
    ensures m.sessionId in groups ==>
              IsGrouping(msgs + [m], groups[m.sessionId := groups[m.sessionId] + [m]], keys)
  {
    SessionIdsSnoc(msgs, m);
    forall k ensures OfSession(msgs + [m], k) == OfSession(msgs, k) + (if m.sessionId == k then [m] else []) {
      OfSessionSnoc(msgs, m, k);
    }
    if m.sessionId !in groups {
      NoSessionNoMessages(msgs, m.sessionId);
    }
  }

  /** Every group of `sessionGroups` is non-empty. */
  lemma GroupsNonEmpty(msgs: seq<ChatMessage>, groups: map<string, seq<ChatMessage>>, keys: seq<string>, k: string)
    requires IsGrouping(msgs, groups, keys) && k in groups
    ensures groups[k] != []
  {
    SessionIdsMembers(msgs);
    var i :| 0 <= i < |msgs| && msgs[i].sessionId == k;
    OfSessionMembers(msgs, k, msgs[i]);
  }

  /** Position of message i within the group of its session. */
  function GroupIndex(msgs: seq<ChatMessage>, i: nat): nat
    requires i < |msgs|
  {
    |OfSession(msgs[..i], msgs[i].sessionId)|
  }

  /** A prefix of the messages groups into a prefix of each group. */
  lemma {:induction false} OfSessionPrefix(msgs: seq<ChatMessage>, j: nat, k: string)
    requires j <= |msgs|
    ensures OfSession(msgs[..j], k) <= OfSession(msgs, k)
    decreases |msgs| - j
  {
    if j < |msgs| {
      var init := msgs[..|msgs| - 1];
      assert init[..j] == msgs[..j];
      OfSessionPrefix(init, j, k);
    } else {
      assert msgs[..j] == msgs;
    }
  }

  /** Every message sits in the group keyed by its own session id, at `GroupIndex`. */
  lemma InOwnGroup(msgs: seq<ChatMessage>, i: nat)
    requires i < |msgs|
    ensures GroupIndex(msgs, i) < |OfSession(msgs, msgs[i].sessionId)|
    ensures OfSession(msgs, msgs[i].sessionId)[GroupIndex(msgs, i)] == msgs[i]
  {
    var k := msgs[i].sessionId;
    assert msgs[..i + 1] == msgs[..i] + [msgs[i]];
    OfSessionSnoc(msgs[..i], msgs[i], k);
    OfSessionPrefix(msgs, i + 1, k);
  }

  /** Two messages of one session keep their relative order inside the group. */
  lemma GroupKeepsOrder(msgs: seq<ChatMessage>, i: nat, j: nat)
    requires i < j < |msgs| && msgs[i].sessionId == msgs[j].sessionId
    ensures GroupIndex(msgs, i) < GroupIndex(msgs, j)
  {
    var k := msgs[i].sessionId;
    var pre := msgs[..j];
    assert pre[..i + 1] == msgs[..i + 1] == msgs[..i] + [msgs[i]];
    OfSessionSnoc(msgs[..i], msgs[i], k);
    OfSessionPrefix(pre, i + 1, k);
  }

  /** Sum, over the sessions `ks`, of the number of messages of each group satisfying p. */
  function GroupSum(msgs: seq<ChatMessage>, ks: seq<string>, p: ChatMessage -> bool): nat {
    if ks == [] then 0
    else GroupSum(msgs, ks[..|ks| - 1], p) + CountWhere(OfSession(msgs, ks[|ks| - 1]), p)
  }

  lemma {:induction false} GroupSumSnoc(msgs: seq<ChatMessage>, m: ChatMessage, ks: seq<string>, p: ChatMessage -> bool)
    requires Distinct(ks)
    ensures GroupSum(msgs + [m], ks, p) ==
            GroupSum(msgs, ks, p) + (if m.sessionId in ks && p(m) then 1 else 0)
  {
    if ks != [] {
      var init, k := ks[..|ks| - 1], ks[|ks| - 1];
      assert ks == init + [k];
      assert Distinct(init) by {
        forall a, b | 0 <= a < b < |init| ensures init[a] != init[b] {
          assert init[a] == ks[a] && init[b] == ks[b];
        }
      }
      assert m.sessionId == k ==> m.sessionId !in init by {
        forall a | 0 <= a < |init| ensures init[a] != k {
          assert init[a] == ks[a];
        }
      }
      assert m.sessionId in ks <==> m.sessionId in init || m.sessionId == k;
      GroupSumSnoc(msgs, m, init, p);
      var g, g' := OfSession(msgs, k), OfSession(msgs + [m], k);
      OfSessionSnoc(msgs, m, k);
      assert GroupSum(msgs + [m], ks, p) == GroupSum(msgs + [m], init, p) + CountWhere(g', p);
      assert GroupSum(msgs, ks, p) == GroupSum(msgs, init, p) + CountWhere(g, p);
      if m.sessionId == k {
        CountWhereSnoc(g, m, p);
      } else {
        assert g' == g;
      }
    }
  }

  /** A message of a session already seen adds to that session's group. */
  lemma GroupSumExtendOld(init: seq<ChatMessage>, m: ChatMessage, p: ChatMessage -> bool)
    requires m.sessionId in SessionIds(init)
    ensures GroupSum(init + [m], SessionIds(init + [m]), p) ==
            GroupSum(init, SessionIds(init), p) + (if p(m) then 1 else 0)
  {
    SessionIdsDistinct(init);
    SessionIdsSnoc(init, m);
    GroupSumSnoc(init, m, SessionIds(init), p);
  }

  /** A message of a new session opens a group of its own at the end of the keys. */
  lemma GroupSumExtendNew(init: seq<ChatMessage>, m: ChatMessage, p: ChatMessage -> bool)
    requires m.sessionId !in SessionIds(init)
    ensures GroupSum(init + [m], SessionIds(init + [m]), p) ==
            GroupSum(init, SessionIds(init), p) + (if p(m) then 1 else 0)
  {
    var msgs, ks := init + [m], SessionIds(init);
    var ks' := ks + [m.sessionId];
    SessionIdsDistinct(init);
    SessionIdsSnoc(init, m);
    assert SessionIds(msgs) == ks';
    GroupSumSnoc(init, m, ks, p);
    assert GroupSum(msgs, ks, p) == GroupSum(init, ks, p);
    assert ks'[..|ks|] == ks;
    assert GroupSum(msgs, ks', p) == GroupSum(msgs, ks, p) + CountWhere(OfSession(msgs, m.sessionId), p);
    NoSessionNoMessages(init, m.sessionId);
    OfSessionSnoc(init, m, m.sessionId);
    assert OfSession(msgs, m.sessionId) == [m];
    CountWhereSnoc([], m, p);
    assert [] + [m] == [m];
  }

  /** Summed over all sessions, per-group counts give the count over all messages. */
  lemma {:induction false} GroupSumTotal(msgs: seq<ChatMessage>, p: ChatMessage -> bool)
    ensures GroupSum(msgs, SessionIds(msgs), p) == CountWhere(msgs, p)
  {
    if msgs != [] {
      var init, m := msgs[..|msgs| - 1], msgs[|msgs| - 1];
      assert msgs == init + [m];
      GroupSumTotal(init, p);
      if m.sessionId in SessionIds(init) {
        GroupSumExtendOld(init, m, p);
      } else {
        GroupSumExtendNew(init, m, p);
      }
      CountWhereSnoc(init, m, p);
    }
  }

  function Always(m: ChatMessage): bool { true }

  /** The sizes of the groups of `sessionGroups` add up to `allMessages.length`. */
  lemma GroupSizesSum(msgs: seq<ChatMessage>)
    ensures GroupSum(msgs, SessionIds(msgs), Always) == |msgs|
  {
    GroupSumTotal(msgs, Always);
    CountWhereExtremes(msgs, Always);
  }

  /** A sequence without repetitions has as many distinct elements as its length. */
  lemma {:induction false} DistinctCard<T>(s: seq<T>)
    requires Distinct(s)
    ensures |set i | 0 <= i < |s| :: s[i]| == |s|
  {
    if s != [] {
      var init := s[..|s| - 1];
      assert Distinct(init) by {
        forall a, b | 0 <= a < b < |init| ensures init[a] != init[b] {
          assert init[a] == s[a] && init[b] == s[b];
        }
      }
      DistinctCard(init);
      var a := set i | 0 <= i < |init| :: init[i];
      var b := set i | 0 <= i < |s| :: s[i];
      forall x | x in b ensures x in a + {s[|s| - 1]} {
        var i :| 0 <= i < |s| && s[i] == x;
        if i < |init| { assert init[i] == x; }
      }
      forall x | x in a ensures x in b {
        var i :| 0 <= i < |init| && init[i] == x;
        assert s[i] == x;
      }
      assert b == a + {s[|s| - 1]};
      forall x | x in a ensures x != s[|s| - 1] {
        var i :| 0 <= i < |init| && init[i] == x;
        assert s[i] == x;
      }
    }
  }

  /** "Active Sessions", `Object.keys(sessionGroups).length`, is the number of distinct
      session ids among the messages. */
  lemma ActiveSessions(msgs: seq<ChatMessage>)
    ensures |SessionIds(msgs)| == |set i | 0 <= i < |msgs| :: msgs[i].sessionId|
  {
    var ks := SessionIds(msgs);
    SessionIdsDistinct(msgs);
    SessionIdsMembers(msgs);
    DistinctCard(ks);
    var a := set i | 0 <= i < |ks| :: ks[i];
    var b := set i | 0 <= i < |msgs| :: msgs[i].sessionId;
    forall k | k in b ensures k in a {
      var i :| 0 <= i < |msgs| && msgs[i].sessionId == k;
      assert k in ks;
      var j :| 0 <= j < |ks| && ks[j] == k;
    }
    forall k | k in a ensures k in b {
      var j :| 0 <= j < |ks| && ks[j] == k;
      assert k in ks;
      var i :| 0 <= i < |msgs| && msgs[i].sessionId == k;
    }
    assert a == b;
  }

  // ---------------------------------------------------------------------------------------
  // Per-session figures

  function IsUnread(m: ChatMessage): bool { !m.isRead }

  /** `messages.filter(m => !m.isRead).length`. */
  function UnreadCount(g: seq<ChatMessage>): (n: nat)
    ensures n <= |g|
    ensures n == 0 <==> forall i :: 0 <= i < |g| ==> g[i].isRead
  {
    CountWhereExtremes(g, IsUnread);
    CountWhere(g, IsUnread)
  }

  /** The unread badges of all sessions add up to the number of unread messages, the figure
      the server reports for "Unread Messages". */
  lemma UnreadBadgesSum(msgs: seq<ChatMessage>)
    ensures GroupSum(msgs, SessionIds(msgs), IsUnread) == UnreadCount(msgs)
  {
    GroupSumTotal(msgs, IsUnread);
  }

  /** `messages.some(m => m.senderType === 'customer')`. */
  function HasCustomerMessages(g: seq<ChatMessage>): (b: bool)
    ensures b <==> exists i :: 0 <= i < |g| && g[i].senderType == "customer"
  {
    if g == [] then false
    else
      assert forall i :: 0 < i < |g| ==> g[i] == g[1..][i - 1];
      g[0].senderType == "customer" || HasCustomerMessages(g[1..])
  }

  /** `messages[messages.length - 1]`: the last message in server order. */
  function LastMessage(g: Group): (m: ChatMessage)
    ensures m in g
  {
    g[|g| - 1]
  }

  /** The message the session list shows for session k is the one at the largest index of
      `msgs` whose session id is k. */
  lemma {:induction false} LastOfSession(msgs: seq<ChatMessage>, k: string)
    requires OfSession(msgs, k) != []
    ensures exists i :: 0 <= i < |msgs| && msgs[i].sessionId == k && LastMessage(OfSession(msgs, k)) == msgs[i]
                        && forall j :: i < j < |msgs| ==> msgs[j].sessionId != k
  {
    var n := |msgs|;
    if msgs[n - 1].sessionId != k {
      var init := msgs[..n - 1];
      assert OfSession(msgs, k) == OfSession(init, k);
      LastOfSession(init, k);
      var i :| 0 <= i < |init| && init[i].sessionId == k && LastMessage(OfSession(init, k)) == init[i]
               && forall j :: i < j < |init| ==> init[j].sessionId != k;
      forall j | i < j < n
        ensures msgs[j].sessionId != k
      {
        if j < n - 1 {
          assert msgs[j] == init[j];
        }
      }
      assert msgs[i] == init[i];
    }
  }

  /** `Math.max(...messages.map(m => time(m.createdAt)))`. */
  function Latest(g: Group): int {
    if |g| == 1 then g[0].createdAt
    else
      var t0 := Latest(g[1..]);
      if g[0].createdAt >= t0 then g[0].createdAt else t0
  }

  /** `Latest` is the time of one of the messages and no message is later. */
  lemma {:induction false} LatestIsMax(g: Group)
    ensures exists i :: 0 <= i < |g| && g[i].createdAt == Latest(g)
    ensures forall i :: 0 <= i < |g| ==> g[i].createdAt <= Latest(g)
  {
    if |g| > 1 {
      var rest: Group := g[1..];
      LatestIsMax(rest);
      assert forall i :: 1 <= i < |g| ==> g[i] == rest[i - 1];
      var j :| 0 <= j < |rest| && rest[j].createdAt == Latest(rest);
      if g[0].createdAt < Latest(rest) {
        assert g[j + 1].createdAt == Latest(g);
      } else {
        assert g[0].createdAt == Latest(g);
      }
    } else {
      assert g[0].createdAt == Latest(g);
    }
  }

  /** The last message is never later than the latest one ... */
  lemma LastNoLaterThanLatest(g: Group)
    ensures LastMessage(g).createdAt <= Latest(g)
  {
    LatestIsMax(g);
  }

  /** ... but need not be the latest: the session list shows the last message in server
      order, which can be older than the session's latest message. */
  lemma LastMessageNotLatest()
    ensures var g: Group := [ChatMessage(1, "s", "later", "customer", None, None, false, 20),
                             ChatMessage(2, "s", "earlier", "admin", None, None, true, 10)];
            LastMessage(g).createdAt < Latest(g)
  {
    var g: Group := [ChatMessage(1, "s", "later", "customer", None, None, false, 20),
                     ChatMessage(2, "s", "earlier", "admin", None, None, true, 10)];
    var rest: Group := g[1..];
    assert Latest(rest) == 10;
  }

  // ---------------------------------------------------------------------------------------
  // sortedSessions

  /** `Object.entries(sessionGroups)`, in key order. */
  function Entries(groups: map<string, seq<ChatMessage>>, keys: seq<string>): (es: seq<Session>)
    requires forall i :: 0 <= i < |keys| ==> keys[i] in groups && groups[keys[i]] != []
    ensures |es| == |keys|
    ensures forall i :: 0 <= i < |es| ==> es[i].id == keys[i] && es[i].messages == groups[keys[i]]
  {
    seq(|keys|, i requires 0 <= i < |keys| => Session(keys[i], groups[keys[i]]))
  }

  /** Each session is at least as recent as the next one. */
  predicate ByRecency(s: seq<Session>) {
    forall i :: 0 <= i < |s| - 1 ==> Latest(s[i].messages) >= Latest(s[i + 1].messages)
  }

  /** Inserts a session before the first one that is not more recent than it. */
  function InsertByRecency(e: Session, s: seq<Session>): (r: seq<Session>)
    requires ByRecency(s)
    ensures multiset(r) == multiset(s) + multiset{e}
    ensures ByRecency(r)
    ensures r[0] == e || (s != [] && r[0] == s[0])
  {
    if s == [] || Latest(e.messages) >= Latest(s[0].messages) then
      [e] + s
    else
      assert s == [s[0]] + s[1..];
      [s[0]] + InsertByRecency(e, s[1..])
  }

  /** `Object.entries(sessionGroups).sort(([, a], [, b]) => latestB - latestA)`: the sessions,
      most recent first. */
  function SortByRecency(s: seq<Session>): (r: seq<Session>)
    ensures multiset(r) == multiset(s)
    ensures ByRecency(r)
  {
    if s == [] then []
    else
      assert s == [s[0]] + s[1..];
      InsertByRecency(s[0], SortByRecency(s[1..]))
  }

  /** Along a list where each session is at least as recent as the next, any session is at
      least as recent as every later one. */
  lemma {:induction false} ByRecencyTransitive(s: seq<Session>, i: nat, j: nat)
    requires ByRecency(s) && i <= j < |s|
    ensures Latest(s[i].messages) >= Latest(s[j].messages)
    decreases j - i
  {
    if i < j {
      ByRecencyTransitive(s, i + 1, j);
    }
  }

  /** The sorted session list holds each session of the dashboard exactly once, each with its
      own group, most recent first. */
  lemma SortedSessions(msgs: seq<ChatMessage>, groups: map<string, seq<ChatMessage>>, keys: seq<string>)
    requires IsGrouping(msgs, groups, keys)
    ensures forall i :: 0 <= i < |keys| ==> keys[i] in groups && groups[keys[i]] != []
    ensures var sorted := SortByRecency(Entries(groups, keys));
            && multiset(sorted) == multiset(Entries(groups, keys))
            && (forall i, j :: 0 <= i < j < |sorted| ==>
                  Latest(sorted[i].messages) >= Latest(sorted[j].messages))
            && forall i :: 0 <= i < |sorted| ==>
                 sorted[i].id in keys && sorted[i].messages == OfSession(msgs, sorted[i].id)
  {
    forall i | 0 <= i < |keys| ensures keys[i] in groups && groups[keys[i]] != [] {
      GroupsNonEmpty(msgs, groups, keys, keys[i]);
    }
    var es := Entries(groups, keys);
    var sorted := SortByRecency(es);
    forall i, j | 0 <= i < j < |sorted|
      ensures Latest(sorted[i].messages) >= Latest(sorted[j].messages)
    {
      ByRecencyTransitive(sorted, i, j);
    }
    forall i | 0 <= i < |sorted|
      ensures sorted[i].id in keys && sorted[i].messages == OfSession(msgs, sorted[i].id)
    {
      assert sorted[i] in multiset(es);
      var j :| 0 <= j < |es| && es[j] == sorted[i];
    }
  }

  // ---------------------------------------------------------------------------------------
  // The message view

  /** `selectedSession` is set: JavaScript treats `null` and `""` alike as false. */
  predicate IsSelected(selected: Option<string>) {
    selected.Some? && selected.value != ""
  }

  /** `selectedSession ? sessionGroups[selectedSession] || [] : []`. */
  function SelectedMessages(groups: map<string, seq<ChatMessage>>, selected: Option<string>): (g: seq<ChatMessage>)
    ensures !IsSelected(selected) ==> g == []
    ensures IsSelected(selected) && selected.value in groups ==> g == groups[selected.value]
    ensures IsSelected(selected) && selected.value !in groups ==> g == []
  {
    if IsSelected(selected) && selected.value in groups then groups[selected.value] else []
  }

  /** The selected messages are the messages of the selected session, in server order. */
  lemma SelectedIsSession(msgs: seq<ChatMessage>, groups: map<string, seq<ChatMessage>>, keys: seq<string>,
                          selected: Option<string>)
    requires IsGrouping(msgs, groups, keys)
    ensures SelectedMessages(groups, selected) ==
            if IsSelected(selected) then OfSession(msgs, selected.value) else []
  {
    if IsSelected(selected) && selected.value !in groups {
      NoSessionNoMessages(msgs, selected.value);
    }
  }

  predicate ByTime(s: seq<ChatMessage>) {
    forall i, j :: 0 <= i < j < |s| ==> s[i].createdAt <= s[j].createdAt
  }

  /** The first n elements of `a` are in time order. */
  ghost predicate SortedUpTo(a: array<ChatMessage>, n: int)
    reads a
    requires 0 <= n <= a.Length
  {
    forall p, q :: 0 <= p < q < n ==> a[p].createdAt <= a[q].createdAt
  }

  /** `Array.prototype.sort` with `(a, b) => time(a) - time(b)`, in place: an insertion sort
      that sinks each element into the sorted prefix. */
  method SortByTime(a: array<ChatMessage>)
    modifies a
    ensures ByTime(a[..])
    ensures multiset(a[..]) == multiset(old(a[..]))
  {
    var i := 0;
    while i < a.Length
      invariant 0 <= i <= a.Length
      invariant SortedUpTo(a, i)
      invariant multiset(a[..]) == multiset(old(a[..]))
    {
      Sink(a, i);
      i := i + 1;
    }
  }

  /** Moves `a[i]` down into the sorted prefix `a[..i]` by adjacent swaps. */
  method Sink(a: array<ChatMessage>, i: nat)
    requires i < a.Length && SortedUpTo(a, i)
    modifies a
    ensures SortedUpTo(a, i + 1)
    ensures multiset(a[..]) == multiset(old(a[..]))
    ensures forall k :: i < k < a.Length ==> a[k] == old(a[k])
  {
    var j := i;
    while j > 0 && a[j - 1].createdAt > a[j].createdAt
      invariant 0 <= j <= i
      invariant forall k :: i < k < a.Length ==> a[k] == old(a[k])
      invariant forall p, q :: 0 <= p < q <= i && p != j && q != j ==> a[p].createdAt <= a[q].createdAt
      invariant forall q :: j < q <= i ==> a[j].createdAt <= a[q].createdAt
      invariant multiset(a[..]) == multiset(old(a[..]))
    {
      Swap(a, j - 1, j);
      j := j - 1;
    }
  }

  /** Exchanges two elements of the array. */
  method Swap(a: array<ChatMessage>, i: nat, j: nat)
    requires i < j < a.Length
    modifies a
    ensures a[i] == old(a[j]) && a[j] == old(a[i])
    ensures forall k :: 0 <= k < a.Length && k != i && k != j ==> a[k] == old(a[k])
    ensures multiset(a[..]) == multiset(old(a[..]))
  {
    a[i], a[j] := a[j], a[i];
  }

  /** The messages the view shows for the selected session: its group, oldest first. */
  method MessageView(groups: map<string, seq<ChatMessage>>, selected: Option<string>) returns (shown: seq<ChatMessage>)
    ensures multiset(shown) == multiset(SelectedMessages(groups, selected))
    ensures ByTime(shown)
  {
    var g := SelectedMessages(groups, selected);
    var a := new ChatMessage[|g|](i requires 0 <= i < |g| => g[i]);
    assert a[..] == g;
    SortByTime(a);
    shown := a[..];
  }

  // ---------------------------------------------------------------------------------------
  // The reply guard

  /** The characters `String.prototype.trim` removes: WhiteSpace (tab, vertical tab, form
      feed, no-break space, byte order mark and the space separators of Unicode category Zs)
      and LineTerminator (line feed, carriage return, line and paragraph separators). */
  predicate IsSpace(c: char) {
    || c == '\t' || c == '\n' || c == '\U{000B}' || c == '\U{000C}' || c == '\r'
    || c == ' ' || c == '\U{00A0}' || c == '\U{1680}' || ('\U{2000}' <= c <= '\U{200A}')
    || c == '\U{2028}' || c == '\U{2029}' || c == '\U{202F}' || c == '\U{205F}' || c == '\U{3000}'
    || c == '\U{FEFF}'
  }

  /** Every character of `s` satisfies `ws`. */
  predicate AllOf(s: string, ws: char -> bool) {
    forall i :: 0 <= i < |s| ==> ws(s[i])
  }

  /** Number of leading characters of `s` that satisfy `ws`. */
  function LeadingRun(s: string, ws: char -> bool): (n: nat)
    ensures n <= |s| && AllOf(s[..n], ws)
    ensures n < |s| ==> !ws(s[n])
  {
    if s == [] || !ws(s[0]) then 0
    else
      var n := LeadingRun(s[1..], ws);
      assert s[..n + 1] == [s[0]] + s[1..][..n];
      n + 1
  }

  /** Number of trailing characters of `s` that satisfy `ws`. */
  function TrailingRun(s: string, ws: char -> bool): (n: nat)
    ensures n <= |s| && AllOf(s[|s| - n..], ws)
    ensures n < |s| ==> !ws(s[|s| - n - 1])
  {
    if s == [] || !ws(s[|s| - 1]) then 0
    else
      var init := s[..|s| - 1];
      var n := TrailingRun(init, ws);
      assert s[|s| - n - 1..] == init[|init| - n..] + [s[|s| - 1]];
      n + 1
  }

  /** The trailing run of a suffix of `s`, stated on `s` itself. */
  lemma TrailingRunOfSuffix(s: string, i: nat, ws: char -> bool)
    requires i <= |s|
    ensures var n := TrailingRun(s[i..], ws);
            && n <= |s| - i && AllOf(s[|s| - n..], ws)
            && (n < |s| - i ==> !ws(s[|s| - n - 1]))
  {
    var rest := s[i..];
    var n := TrailingRun(rest, ws);
    assert rest[|rest| - n..] == s[|s| - n..];
    if n < |rest| {
      assert rest[|rest| - n - 1] == s[|s| - n - 1];
    }
  }

  /** `s` without its leading and trailing characters that satisfy `ws`. */
  function Strip(s: string, ws: char -> bool): (t: string)
    ensures exists i, j :: 0 <= i <= j <= |s| && t == s[i..j] && AllOf(s[..i], ws) && AllOf(s[j..], ws)
    ensures t != [] ==> !ws(t[0]) && !ws(t[|t| - 1])
  {
    var i := LeadingRun(s, ws);
    TrailingRunOfSuffix(s, i, ws);
    s[i..|s| - TrailingRun(s[i..], ws)]
  }

  lemma StripEmptyAll(s: string, ws: char -> bool)
    requires Strip(s, ws) == []
    ensures AllOf(s, ws)
  {
    var i := LeadingRun(s, ws);
    TrailingRunOfSuffix(s, i, ws);
    assert |s| - TrailingRun(s[i..], ws) == i;
    assert i == |s| && s[..i] == s;
  }

  lemma AllStripEmpty(s: string, ws: char -> bool)
    requires AllOf(s, ws)
    ensures Strip(s, ws) == []
  {
    var i := LeadingRun(s, ws);
    assert i == |s|;
    assert s[i..] == [];
  }

  /** Stripping leaves nothing exactly when every character is stripped. */
  lemma StripEmpty(s: string, ws: char -> bool)
    ensures Strip(s, ws) == [] <==> AllOf(s, ws)
  {
    if Strip(s, ws) == [] {
      StripEmptyAll(s, ws);
    }
    if AllOf(s, ws) {
      AllStripEmpty(s, ws);
    }
  }

  /** Stripping twice is stripping once. */
  lemma StripIdempotent(s: string, ws: char -> bool)
    ensures Strip(Strip(s, ws), ws) == Strip(s, ws)
  {
    var t := Strip(s, ws);
    if t != [] {
      assert LeadingRun(t, ws) == 0;
      assert t[0..] == t;
      assert TrailingRun(t, ws) == 0;
      assert t[0..|t| - 0] == t;
    }
  }

  /** `String.prototype.trim`. */
  function Trim(s: string): string {
    Strip(s, IsSpace)
  }

  /** `handleSendReply`: nothing is sent when the reply is blank or no session is selected;
      otherwise an admin message with the trimmed reply goes to the selected session. */
  function SendReply(reply: string, selected: Option<string>): (r: Option<Outgoing>)
    ensures r.None? <==> AllOf(reply, IsSpace) || !IsSelected(selected)
    ensures r.Some? ==>
      && r.value.sessionId == selected.value && r.value.senderType == "admin"
      && r.value.message != [] && !IsSpace(r.value.message[0]) && !IsSpace(r.value.message[|r.value.message| - 1])
      && exists i, j :: 0 <= i <= j <= |reply| && r.value.message == reply[i..j]
                        && AllOf(reply[..i], IsSpace) && AllOf(reply[j..], IsSpace)
  {
    StripEmpty(reply, IsSpace);
    if Trim(reply) == [] || !IsSelected(selected) then None
    else Some(Outgoing(selected.value, Trim(reply), "admin"))
  }

  // ---------------------------------------------------------------------------------------
  // Order figures

  /** `orders.filter(order => order.status === status).length`. */
  function StatusCount(orders: seq<Order>, status: string): (n: nat)
    ensures n <= |orders|
    ensures n == 0 <==> forall i :: 0 <= i < |orders| ==> orders[i].status != status
  {
    CountWhereExtremes(orders, (o: Order) => o.status == status);
    CountWhere(orders, (o: Order) => o.status == status)
  }

  /** No order is counted both as pending and as shipped. */
  lemma PendingAndShipped(orders: seq<Order>)
    ensures StatusCount(orders, "pending") + StatusCount(orders, "shipped") <= |orders|
  {
    CountDisjoint(orders, (o: Order) => o.status == "pending", (o: Order) => o.status == "shipped");
  }
}
