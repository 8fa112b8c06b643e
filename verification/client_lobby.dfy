/**
 * The client's lobby and room screens (html/js/index.js): the client and
 * room lists kept by id, the room the page is in, the location hash that
 * remembers it, and the command the page sends by itself on arrival.
 */
module ClientLobby {
  import opened Wrappers
  import opened Strings
  import opened JsValues
  import opened ClientCommands
  import opened ClientState

  // ------------------------------------------------------------- location hash

  /** One `name=value` pair of the hash, if it names `property`. */
  function PairValue(pair: string, property: string): (r: Option<string>)
    ensures r.Some? ==> pair == property + "=" + r.value
  {
    var kv := Split(pair, '=');
    if |kv| == 2 && kv[0] == property then
      assert Join(kv, ['=']) == Join(kv[..1], ['=']) + ['='] + kv[1] by {
        JoinSnoc(kv[..1], kv[1], ['=']);
        assert kv[..1] + [kv[1]] == kv;
      }
      Some(kv[1])
    else None
  }

  /** The value of the first pair naming `property`. */
  function FirstValue(pairs: seq<string>, property: string): (r: Option<string>)
    ensures r.None? <==> forall i :: 0 <= i < |pairs| ==> PairValue(pairs[i], property).None?
    ensures r.Some? ==> exists i :: (0 <= i < |pairs| && PairValue(pairs[i], property) == r &&
      forall j :: 0 <= j < i ==> PairValue(pairs[j], property).None?)
  {
    if |pairs| == 0 then None
    else match PairValue(pairs[0], property)
      case Some(x) => Some(x)
      case None =>
        var r := FirstValue(pairs[1..], property);
        assert forall i :: 0 < i < |pairs| ==> pairs[1..][i - 1] == pairs[i];
        if r.Some? then
          var i :| 0 <= i < |pairs[1..]| && PairValue(pairs[1..][i], property) == r &&
            forall j :: 0 <= j < i ==> PairValue(pairs[1..][j], property).None?;
          assert PairValue(pairs[i + 1], property) == r;
          r
        else r
  }

  /** getFromHash: the value of `property` among the `&`-separated pairs of the hash. */
  function GetFromHash(hash: string, property: string): (r: Option<string>)
    ensures r.Some? ==> exists p :: p in Split(hash, '&') && p == property + "=" + r.value
  {
    var pairs := Split(hash, '&');
    var r := FirstValue(pairs, property);
    if r.Some? then
      var i :| 0 <= i < |pairs| && PairValue(pairs[i], property) == r;
      assert pairs[i] in pairs;
      r
    else r
  }

  /** updateLocationWithRoomId: the hash becomes `roomId=<id>`. */
  function SetRoomHash(v: View, roomId: Json): (r: View)
    ensures r.hash == "roomId=" + JsText(roomId) && r.(hash := v.hash) == v
  {
    v.(hash := "roomId=" + JsText(roomId))
  }

  /** The hash written for a room reads back as that room's id. */
  lemma {:induction false} HashRoundTrip(n: nat)
    ensures GetFromHash("roomId=" + NatToString(n), "roomId") == Some(NatToString(n))
  {
    var digits := NatToString(n);
    var hash := "roomId=" + digits;
    var key := "roomId";
    assert hash == key + ['='] + digits;
    assert NoChar(digits, '=') && NoChar(digits, '&');
    assert NoChar(key, '=') && NoChar(key, '&');
    assert NoChar(hash, '&');
    SplitNoSep(hash, '&');
    assert Split(hash, '&') == [hash];
    SplitPrefix(key, digits, '=');
    SplitNoSep(digits, '=');
    assert Split(hash, '=') == [key, digits];
    assert PairValue(hash, key) == Some(digits);
    assert FirstValue([hash], key) == Some(digits);
  }

  // ------------------------------------------------------------- lists by id

  /** The first position whose element's `id` is strictly equal to `id`, or -1. */
  function IndexById(items: seq<Json>, id: Json): (r: int)
    ensures -1 <= r < |items|
    ensures r >= 0 ==> StrictEq(Get(items[r], "id"), id) && forall j :: 0 <= j < r ==> !StrictEq(Get(items[j], "id"), id)
    ensures r == -1 <==> forall j :: 0 <= j < |items| ==> !StrictEq(Get(items[j], "id"), id)
  {
    if |items| == 0 then -1
    else if StrictEq(Get(items[0], "id"), id) then 0
    else
      var r := IndexById(items[1..], id);
      assert forall j :: 0 < j < |items| ==> items[1..][j - 1] == items[j];
      if r == -1 then -1 else r + 1
  }

  /** getRoomIndexById over the room list. */
  function RoomIndexById(rooms: Json, id: Json): (r: int)
    ensures rooms.JArr? ==> r == IndexById(rooms.items, id)
    ensures !rooms.JArr? ==> r == -1
  {
    if rooms.JArr? then IndexById(rooms.items, id) else -1
  }

  /**
   * getRoomMemberIndexById: -1 without a room, the member's position when
   * the room has a member array; None where reading `room.members.length`
   * throws.
   */
  function MemberIndexById(room: Json, id: Json): (r: Option<int>)
    ensures !Truthy(room) ==> r == Some(-1)
    ensures Truthy(room) && Get(room, "members").JArr? ==> r == Some(IndexById(Get(room, "members").items, id))
    ensures r.None? <==> Truthy(room) && Nullish(Get(room, "members"))
  {
    if !Truthy(room) then Some(-1)
    else match Get(room, "members")
      case JArr(items) => Some(IndexById(items, id))
      case JUndefined => None
      case JNull => None
      case _ => Some(-1)
  }

  /** How many members are marked as players. */
  function PlayersCount(members: seq<Json>): (r: nat)
    ensures r <= |members|
    ensures r == 0 <==> forall i :: 0 <= i < |members| ==> !Truthy(Get(members[i], "isPlayer"))
    ensures r == |members| <==> forall i :: 0 <= i < |members| ==> Truthy(Get(members[i], "isPlayer"))
  {
    if |members| == 0 then 0
    else
      assert forall i :: 0 < i < |members| ==> members[1..][i - 1] == members[i];
      PlayersCount(members[1..]) + (if Truthy(Get(members[0], "isPlayer")) then 1 else 0)
  }

  /**
   * updatePlayersInRoomCounter: the number of player members of the room;
   * None where reading `room.members.length` throws.
   */
  function PlayersInRoom(room: Json): (r: Option<nat>)
    ensures Get(room, "members").JArr? ==> r == Some(PlayersCount(Get(room, "members").items))
    ensures r.None? <==> Nullish(Get(room, "members"))
  {
    match Get(room, "members")
    case JArr(items) => Some(PlayersCount(items))
    case JUndefined => None
    case JNull => None
    case _ => Some(0)
  }

  /** An object with the property `key` set to `value` in place. */
  function Put(fields: seq<(string, Json)>, key: string, value: Json): (r: seq<(string, Json)>)
    ensures |r| == |fields|
    ensures forall k :: LastValue(r, k) == if k == key && LastValue(fields, k).Some? then Some(value) else LastValue(fields, k)
  {
    if |fields| == 0 then []
    else
      var last := fields[|fields| - 1];
      var front := Put(fields[..|fields| - 1], key, value);
      var r := front + [if last.0 == key then (key, value) else last];
      assert r[..|r| - 1] == front;
      r
  }

  /** Vue.set(room.members, i, member): the member at position i replaced. */
  function SetMember(room: Json, i: int, member: Json): (r: Json)
    requires Get(room, "members").JArr? && 0 <= i < |Get(room, "members").items|
    ensures Get(r, "members") == JArr(Get(room, "members").items[i := member])
    ensures forall k :: k != "members" ==> Get(r, k) == Get(room, k)
  {
    JObj(Put(room.fields, "members", JArr(Get(room, "members").items[i := member])))
  }

  // ------------------------------------------------------------- lobby events

  /**
   * onClientJoinedEvent: remember who you are and the lists, then join by
   * yourself: create a room when there is none, join the only room when it
   * has exactly one member, else join the room named in the hash.  A lone
   * room that is null makes the member lookup throw, so nothing is sent.
   */
  function OnClientJoinedEvent(v: View, data: Json): (r: View)
    ensures Nullish(data) ==> r == v
    ensures !Nullish(data) ==>
      r.yourId == Get(data, "yourId") && r.yourNickname == Get(data, "yourNickname") &&
      r.clients == Get(data, "clients") && r.rooms == Get(data, "rooms")
    ensures r.(yourId := v.yourId, yourNickname := v.yourNickname, clients := v.clients,
               rooms := v.rooms, sent := v.sent) == v
    ensures |v.sent| <= |r.sent| <= |v.sent| + 1 && r.sent[..|v.sent|] == v.sent
    ensures |r.sent| > |v.sent| ==> r.sent[|v.sent|].kind == Lobbies.CommandTypeLobby
  {
    if Nullish(data) then v
    else
      var rooms := Get(data, "rooms");
      var fromHash := GetFromHash(v.hash, "roomId");
      var loaded := v.(yourId := Get(data, "yourId"), yourNickname := Get(data, "yourNickname"),
                       clients := Get(data, "clients"), rooms := rooms);
      if Nullish(rooms) then loaded
      else if Length(rooms) == Some(0) then Send(loaded, CreateRoom())
      else if rooms.JArr? && |rooms.items| == 1 && Nullish(rooms.items[0]) then loaded
      else if Length(rooms) == Some(1) && StrictEq(Get(Item(rooms, 0), "membersNum"), JNum(1)) then
        Send(loaded, JoinRoom(Get(Item(rooms, 0), "id")))
      else if fromHash.Some? && fromHash.value != "" then Send(loaded, JoinRoom(JStr(fromHash.value)))
      else loaded
  }

  /**
   * Which command arrival sends: a new room exactly when the room list is
   * empty, the lone room when it has one member, or else the room named in
   * the hash; nothing when the lone room is null.
   */
  lemma ArrivalCommand(v: View, data: Json)
    ensures var r := OnClientJoinedEvent(v, data);
      Nullish(data) || Nullish(Get(data, "rooms")) ==> r.sent == v.sent
    ensures var r := OnClientJoinedEvent(v, data);
      !Nullish(data) ==>
      (r.sent == v.sent + [CreateRoom()] <==> Length(Get(data, "rooms")) == Some(0))
    ensures var r := OnClientJoinedEvent(v, data);
      !Nullish(data) && Length(Get(data, "rooms")) == Some(1) &&
      StrictEq(Get(Item(Get(data, "rooms"), 0), "membersNum"), JNum(1)) ==>
      r.sent == v.sent + [JoinRoom(Get(Item(Get(data, "rooms"), 0), "id"))]
    ensures var r := OnClientJoinedEvent(v, data);
      (!Nullish(data) && Get(data, "rooms").JArr? && |Get(data, "rooms").items| == 1 &&
       Nullish(Get(data, "rooms").items[0])) ==> r.sent == v.sent
    ensures var r := OnClientJoinedEvent(v, data);
      (!Nullish(data) && Get(data, "rooms").JArr? && |Get(data, "rooms").items| >= 1 &&
             !(|Get(data, "rooms").items| == 1 && Nullish(Get(data, "rooms").items[0])) &&
             !(|Get(data, "rooms").items| == 1 && StrictEq(Get(Get(data, "rooms").items[0], "membersNum"), JNum(1)))) ==>
      match GetFromHash(v.hash, "roomId")
      case Some(id) => r.sent == v.sent + (if id == "" then [] else [JoinRoom(JStr(id))])
      case None => r.sent == v.sent
  {
  }

  /** onClientBroadCastJoinedEvent: the newcomer is appended to the client list. */
  function OnClientBroadcastJoinedEvent(v: View, data: Json): (r: View)
    ensures r.(clients := v.clients) == v
    ensures !v.clients.JArr? ==> r.clients == v.clients
    ensures v.clients.JArr? ==>
      r.clients.JArr? && |r.clients.items| == |v.clients.items| + 1 &&
      r.clients.items[..|v.clients.items|] == v.clients.items && r.clients.items[|v.clients.items|] == data
  {
    if v.clients.JArr? then v.(clients := JArr(v.clients.items + [data])) else v
  }

  /** The elements whose id is strictly equal to `id`. */
  function Matches(items: seq<Json>, id: Json): (r: nat)
    ensures r <= |items|
  {
    if |items| == 0 then 0
    else (if StrictEq(Get(items[0], "id"), id) then 1 else 0) + Matches(items[1..], id)
  }

  /** The list without the elements whose id is `id`, others in their order. */
  function RemoveById(items: seq<Json>, id: Json): (r: seq<Json>)
    ensures |r| == |items| - Matches(items, id)
  {
    if |items| == 0 then []
    else if StrictEq(Get(items[0], "id"), id) then RemoveById(items[1..], id)
    else [items[0]] + RemoveById(items[1..], id)
  }

  /** RemoveById keeps exactly the elements with another id. */
  lemma {:induction false} RemoveByIdKeepsOthers(items: seq<Json>, id: Json)
    ensures forall x :: x in RemoveById(items, id) ==> x in items && !StrictEq(Get(x, "id"), id)
    ensures forall i :: 0 <= i < |items| && !StrictEq(Get(items[i], "id"), id) ==> items[i] in RemoveById(items, id)
  {
    if |items| > 0 {
      RemoveByIdKeepsOthers(items[1..], id);
      assert forall i :: 0 < i < |items| ==> items[i] == items[1..][i - 1];
    }
  }

  /**
   * onClientLeftEvent as written: an ascending index loop that splices out
   * each match; after a splice the next element has moved under the index
   * the loop then steps past.
   */
  function SpliceLoop(items: seq<Json>, id: Json, ind: nat): (r: seq<Json>)
    ensures |r| <= |items|
    ensures ind >= |items| ==> r == items
    ensures ind <= |items| ==> |r| >= ind && r[..ind] == items[..ind]
    ensures forall x :: x in r ==> x in items
    decreases if ind <= |items| then |items| - ind else 0
  {
    if ind >= |items| then items
    else if StrictEq(Get(items[ind], "id"), id) then
      var rest := items[..ind] + items[ind + 1..];
      assert rest[..ind] == items[..ind];
      assert forall x :: x in rest ==> x in items;
      SpliceLoop(rest, id, ind + 1)
    else SpliceLoop(items, id, ind + 1)
  }

  /** The client with id 1 listed twice in a row: one entry survives the loop. */
  lemma SpliceLoopKeepsAdjacentDuplicate()
    ensures var a := JObj([("id", JNum(1))]);
      SpliceLoop([a, a], JNum(1), 0) == [a] && RemoveById([a, a], JNum(1)) == []
  {
    var a := JObj([("id", JNum(1))]);
    assert Get(a, "id") == JNum(1);
    assert [a, a][..0] + [a, a][1..] == [a];
  }

  lemma RemoveByIdFront(items: seq<Json>, id: Json)
    requires |items| > 0
    ensures RemoveById(items, id) ==
      (if StrictEq(Get(items[0], "id"), id) then [] else [items[0]]) + RemoveById(items[1..], id)
    ensures Matches(items, id) == (if StrictEq(Get(items[0], "id"), id) then 1 else 0) + Matches(items[1..], id)
  {
  }

  /** One step of the loop over a match: the match is spliced out and the index moves on. */
  lemma SpliceStep(items: seq<Json>, id: Json, ind: nat)
    requires ind < |items| && StrictEq(Get(items[ind], "id"), id)
    ensures SpliceLoop(items, id, ind) == SpliceLoop(items[..ind] + items[ind + 1..], id, ind + 1)
  {
  }

  /** Removing from a list that starts with a match. */
  lemma RemoveMatchFront(items: seq<Json>, id: Json, ind: nat)
    requires ind < |items| && StrictEq(Get(items[ind], "id"), id)
    ensures RemoveById(items[ind..], id) == RemoveById(items[ind + 1..], id)
  {
    RemoveByIdFront(items[ind..], id);
    assert items[ind..][0] == items[ind] && items[ind..][1..] == items[ind + 1..];
  }

  /** Splicing out a match at `ind` when nothing after it matches. */
  lemma {:induction false} SpliceMatchAgrees(items: seq<Json>, id: Json, ind: nat)
    requires ind < |items| && StrictEq(Get(items[ind], "id"), id) && Matches(items[ind + 1..], id) == 0
    ensures SpliceLoop(items, id, ind) == items[..ind] + RemoveById(items[ind..], id)
    decreases |items| - ind, 1
  {
    SpliceStep(items, id, ind);
    RemoveMatchFront(items, id, ind);
    if ind + 1 == |items| {
      assert items[..ind] + items[ind + 1..] == items[..ind];
      assert RemoveById(items[ind + 1..], id) == [];
    } else {
      SpliceInnerMatch(items, id, ind);
    }
  }

  /** The element after a spliced match is not a match, and the loop resumes past it. */
  lemma {:induction false} SpliceInnerMatch(items: seq<Json>, id: Json, ind: nat)
    requires ind + 1 < |items| && Matches(items[ind + 1..], id) == 0
    ensures SpliceLoop(items[..ind] + items[ind + 1..], id, ind + 1) == items[..ind] + RemoveById(items[ind + 1..], id)
    decreases |items| - ind, 0
  {
    var next := items[..ind] + items[ind + 1..];
    var rest := items[ind + 1..];
    var after := RemoveById(items[ind + 2..], id);
    assert rest[0] == items[ind + 1] && rest[1..] == items[ind + 2..];
    RemoveByIdFront(rest, id);
    assert RemoveById(rest, id) == [items[ind + 1]] + after;
    assert next[ind + 1..] == items[ind + 2..];
    assert next[..ind + 1] == items[..ind] + [items[ind + 1]];
    SpliceLoopAgrees(next, id, ind + 1);
    AppendAssoc(items[..ind], [items[ind + 1]], after);
  }

  /** With at most one match ahead of the index, the loop removes exactly the matches. */
  lemma {:induction false} SpliceLoopAgrees(items: seq<Json>, id: Json, ind: nat)
    requires ind <= |items| && Matches(items[ind..], id) <= 1
    ensures SpliceLoop(items, id, ind) == items[..ind] + RemoveById(items[ind..], id)
    decreases |items| - ind, 2
  {
    if ind == |items| {
      assert items[..ind] == items;
    } else {
      var tail := items[ind..];
      RemoveByIdFront(tail, id);
      assert tail[0] == items[ind] && tail[1..] == items[ind + 1..];
      if StrictEq(Get(items[ind], "id"), id) {
        SpliceMatchAgrees(items, id, ind);
      } else {
        var after := RemoveById(items[ind + 1..], id);
        assert RemoveById(tail, id) == [items[ind]] + after;
        SpliceLoopAgrees(items, id, ind + 1);
        assert SpliceLoop(items, id, ind) == SpliceLoop(items, id, ind + 1);
        assert items[..ind + 1] == items[..ind] + [items[ind]];
        AppendAssoc(items[..ind], [items[ind]], after);
      }
    }
  }

  /** onClientLeftEvent: every entry of the leaving client is dropped from the list. */
  function OnClientLeftEvent(v: View, data: Json): (r: View)
    ensures r.(clients := v.clients) == v
    ensures !v.clients.JArr? || Nullish(data) ==> r.clients == v.clients
    ensures v.clients.JArr? && !Nullish(data) ==>
      r.clients.JArr? &&
      |r.clients.items| == |v.clients.items| - Matches(v.clients.items, Get(data, "id")) &&
      (forall x :: x in r.clients.items <==> x in v.clients.items && !StrictEq(Get(x, "id"), Get(data, "id")))
  {
    if v.clients.JArr? && !Nullish(data) then
      RemoveByIdKeepsOthers(v.clients.items, Get(data, "id"));
      v.(clients := JArr(RemoveById(v.clients.items, Get(data, "id"))))
    else v
  }

  /** onRoomInListUpdatedEvent: the listed room with the same id is replaced. */
  function OnRoomInListUpdatedEvent(v: View, data: Json): (r: View)
    ensures r.(rooms := v.rooms) == v
    ensures Nullish(data) || Nullish(Get(data, "room")) || RoomIndexById(v.rooms, Get(Get(data, "room"), "id")) < 0 ==>
      r.rooms == v.rooms
    ensures !Nullish(data) && !Nullish(Get(data, "room")) && RoomIndexById(v.rooms, Get(Get(data, "room"), "id")) >= 0 ==>
      var i := RoomIndexById(v.rooms, Get(Get(data, "room"), "id"));
      r.rooms.JArr? && |r.rooms.items| == |v.rooms.items| && r.rooms.items[i] == Get(data, "room") &&
      forall j :: 0 <= j < |v.rooms.items| && j != i ==> r.rooms.items[j] == v.rooms.items[j]
  {
    if Nullish(data) || Nullish(Get(data, "room")) then v
    else
      var room := Get(data, "room");
      var i := RoomIndexById(v.rooms, Get(room, "id"));
      if i < 0 then v else v.(rooms := JArr(v.rooms.items[i := room]))
  }

  /** An updated room keeps its place in the list and is found there again. */
  lemma RoomUpdateKeepsPlace(v: View, data: Json)
    requires !Nullish(data) && !Nullish(Get(data, "room"))
    requires RoomIndexById(v.rooms, Get(Get(data, "room"), "id")) >= 0
    ensures var id := Get(Get(data, "room"), "id");
      RoomIndexById(OnRoomInListUpdatedEvent(v, data).rooms, id) == RoomIndexById(v.rooms, id)
  {
    var room := Get(data, "room");
    var id := Get(room, "id");
    var i := RoomIndexById(v.rooms, id);
    var after := v.rooms.items[i := room];
    assert forall j :: 0 <= j < i ==> after[j] == v.rooms.items[j];
    assert after[i] == room;
  }

  /** onRoomInListRemovedEvent: the listed room with that id is taken out. */
  function OnRoomInListRemovedEvent(v: View, data: Json): (r: View)
    ensures r.(rooms := v.rooms) == v
    ensures Nullish(data) || RoomIndexById(v.rooms, Get(data, "roomId")) < 0 ==> r.rooms == v.rooms
    ensures !Nullish(data) && RoomIndexById(v.rooms, Get(data, "roomId")) >= 0 ==>
      var i := RoomIndexById(v.rooms, Get(data, "roomId"));
      r.rooms.JArr? && |r.rooms.items| == |v.rooms.items| - 1 &&
      (forall j :: 0 <= j < i ==> r.rooms.items[j] == v.rooms.items[j]) &&
      (forall j :: i < j < |v.rooms.items| ==> r.rooms.items[j - 1] == v.rooms.items[j])
  {
    if Nullish(data) then v
    else
      var i := RoomIndexById(v.rooms, Get(data, "roomId"));
      if i < 0 then v
      else
        var rest := v.rooms.items[..i] + v.rooms.items[i + 1..];
        CutShifts(v.rooms.items, i, rest);
        v.(rooms := JArr(rest))
  }

  /** Removing a room with a unique id leaves no room with that id. */
  lemma RoomRemovedIsGone(v: View, data: Json)
    requires !Nullish(data) && v.rooms.JArr? && Matches(v.rooms.items, Get(data, "roomId")) <= 1
    ensures var r := OnRoomInListRemovedEvent(v, data).rooms;
      r.JArr? && forall j :: 0 <= j < |r.items| ==> !StrictEq(Get(r.items[j], "id"), Get(data, "roomId"))
    ensures RoomIndexById(OnRoomInListRemovedEvent(v, data).rooms, Get(data, "roomId")) == -1
  {
    var id := Get(data, "roomId");
    var items := v.rooms.items;
    var i := IndexById(items, id);
    if i >= 0 {
      var rest := items[..i] + items[i + 1..];
      assert OnRoomInListRemovedEvent(v, data).rooms == JArr(rest);
      NoMatchLeft(items, id, i, rest);
    }
  }

  /** Taking out the first entry with a unique id leaves no entry with it. */
  lemma NoMatchLeft(items: seq<Json>, id: Json, i: nat, rest: seq<Json>)
    requires i < |items| && i == IndexById(items, id) && Matches(items, id) <= 1
    requires rest == items[..i] + items[i + 1..]
    ensures forall j :: 0 <= j < |rest| ==> !StrictEq(Get(rest[j], "id"), id)
  {
    MatchesSplit(items, id, i);
    CutShifts(items, i, rest);
    var tail := items[i + 1..];
    forall j | 0 <= j < |rest|
      ensures !StrictEq(Get(rest[j], "id"), id)
    {
      if i <= j {
        assert rest[j] == items[j + 1] == tail[j - i];
        NoMatchAt(tail, id, j - i);
      }
    }
  }

  lemma {:induction false} MatchesSplit(items: seq<Json>, id: Json, i: nat)
    requires i < |items| && StrictEq(Get(items[i], "id"), id)
    ensures Matches(items, id) >= 1 + Matches(items[i + 1..], id)
  {
    if i > 0 {
      assert items[1..][i - 1..] == items[i..];
      assert items[1..][i..] == items[i + 1..];
      MatchesSplit(items[1..], id, i - 1);
    } else {
      assert items[0] == items[i];
    }
  }

  lemma {:induction false} NoMatchAt(items: seq<Json>, id: Json, j: nat)
    requires j < |items| && Matches(items, id) == 0
    ensures !StrictEq(Get(items[j], "id"), id)
  {
    if j > 0 {
      assert items[1..][j - 1] == items[j];
      NoMatchAt(items[1..], id, j - 1);
    }
  }

  /** onClientCreatedRoomEvent: the new room is appended to the list. */
  function OnClientCreatedRoomEvent(v: View, data: Json): (r: View)
    ensures r.(rooms := v.rooms) == v
    ensures Nullish(data) || !v.rooms.JArr? ==> r.rooms == v.rooms
    ensures !Nullish(data) && v.rooms.JArr? ==>
      r.rooms.JArr? && |r.rooms.items| == |v.rooms.items| + 1 &&
      r.rooms.items[..|v.rooms.items|] == v.rooms.items && r.rooms.items[|v.rooms.items|] == Get(data, "room")
  {
    if Nullish(data) || !v.rooms.JArr? then v else v.(rooms := JArr(v.rooms.items + [Get(data, "room")]))
  }

  /** onClientCommandError: the error is shown (the timer that hides it is not modelled). */
  function OnClientCommandError(v: View, data: Json): (r: View)
    ensures r.commandError == data && r.(commandError := v.commandError) == v
  {
    v.(commandError := data)
  }

  // ------------------------------------------------------------- room events

  /**
   * onRoomJoinedEvent: the page shows the room and counts its players, then
   * writes the room id into the hash and asks to start the game.  Reading
   * the members of a room without a member array throws after the room is
   * stored.
   */
  function OnRoomJoinedEvent(v: View, data: Json): (r: View)
    ensures Nullish(data) ==> r == v
    ensures r.(room := v.room, playersInRoom := v.playersInRoom, hash := v.hash, sent := v.sent) == v
    ensures !Nullish(data) ==> r.room == Get(data, "room")
    ensures !Nullish(data) && PlayersInRoom(Get(data, "room")).None? ==>
      r.playersInRoom == v.playersInRoom && r.hash == v.hash && r.sent == v.sent
    ensures !Nullish(data) && PlayersInRoom(Get(data, "room")).Some? ==>
      r.playersInRoom == PlayersInRoom(Get(data, "room")).value &&
      r.hash == "roomId=" + JsText(Get(Get(data, "room"), "id")) &&
      r.sent == v.sent + [StartGame()]
  {
    if Nullish(data) then v
    else
      var room := Get(data, "room");
      match PlayersInRoom(room)
      case None => v.(room := room)
      case Some(n) => Send(SetRoomHash(v.(room := room, playersInRoom := n), Get(room, "id")), StartGame())
  }

  /** Joining a room with a member list writes its id into the hash. */
  lemma JoinedWritesHash(v: View, joined: Json, n: nat)
    requires !Nullish(joined) && Get(Get(joined, "room"), "members").JArr? && Get(Get(joined, "room"), "id") == JNum(n)
    ensures OnRoomJoinedEvent(v, joined).hash == "roomId=" + NatToString(n)
  {
  }

  /**
   * A page opened with a hash naming a room, arriving in a lobby of several
   * rooms, sends exactly the joinRoom for that room.
   */
  lemma ArrivalJoinsFromHash(hash: string, arrival: Json, roomId: string)
    requires GetFromHash(hash, "roomId") == Some(roomId) && roomId != ""
    requires !Nullish(arrival) && Get(arrival, "rooms").JArr? && |Get(arrival, "rooms").items| >= 2
    ensures OnClientJoinedEvent(Initial(hash), arrival).sent == [JoinRoom(JStr(roomId))]
  {
    var rooms := Get(arrival, "rooms");
    assert !Nullish(rooms) && Length(rooms) != Some(0) && Length(rooms) != Some(1);
  }

  /** onRoomUpdatedEvent: the room is replaced and its players recounted. */
  function OnRoomUpdatedEvent(v: View, data: Json): (r: View)
    ensures Nullish(data) ==> r == v
    ensures r.(room := v.room, playersInRoom := v.playersInRoom) == v
    ensures !Nullish(data) ==> r.room == Get(data, "room")
    ensures !Nullish(data) && PlayersInRoom(Get(data, "room")).Some? ==>
      r.playersInRoom == PlayersInRoom(Get(data, "room")).value
    ensures !Nullish(data) && PlayersInRoom(Get(data, "room")).None? ==> r.playersInRoom == v.playersInRoom
  {
    if Nullish(data) then v
    else
      var room := Get(data, "room");
      match PlayersInRoom(room)
      case None => v.(room := room)
      case Some(n) => v.(room := room, playersInRoom := n)
  }

  /** Replace the member with the same id in the room, when there is one. */
  function ReplaceMember(room: Json, member: Json): (r: Option<Json>)
    ensures r.None? <==> MemberIndexById(room, Get(member, "id")).None?
    ensures r.Some? && MemberIndexById(room, Get(member, "id")).value < 0 ==> r.value == room
    ensures r.Some? && MemberIndexById(room, Get(member, "id")).value >= 0 ==>
      var i := MemberIndexById(room, Get(member, "id")).value;
      Get(room, "members").JArr? && i < |Get(room, "members").items| &&
      r.value == SetMember(room, i, member)
  {
    match MemberIndexById(room, Get(member, "id"))
    case None => None
    case Some(i) => if i < 0 then Some(room) else Some(SetMember(room, i, member))
  }

  /**
   * onRoomMemberChangedStatusEvent: your own wish to play follows the
   * event; the member is replaced in the room.
   */
  function OnRoomMemberChangedStatusEvent(v: View, data: Json): (r: View)
    ensures Nullish(data) || Nullish(Get(data, "member")) ==> r == v
    ensures !Nullish(data) && !Nullish(Get(data, "member")) ==>
      var member := Get(data, "member");
      var mine := StrictEq(Get(member, "id"), v.yourId);
      r.wantToPlay == (if mine then Get(member, "wantToPlay") else v.wantToPlay) &&
      r.room == (match ReplaceMember(v.room, member) case None => v.room case Some(room) => room) &&
      r.(wantToPlay := v.wantToPlay, room := v.room) == v
  {
    if Nullish(data) || Nullish(Get(data, "member")) then v
    else
      var member := Get(data, "member");
      var v1 := if StrictEq(Get(member, "id"), v.yourId) then v.(wantToPlay := Get(member, "wantToPlay")) else v;
      match ReplaceMember(v1.room, member)
      case None => v1
      case Some(room) => v1.(room := room)
  }

  /**
   * onRoomMemberChangedPlayerStatusEvent: the member is replaced in the
   * room and the players recounted.
   */
  function OnRoomMemberChangedPlayerStatusEvent(v: View, data: Json): (r: View)
    ensures Nullish(data) || Nullish(Get(data, "member")) ==> r == v
    ensures !Nullish(data) && !Nullish(Get(data, "member")) ==>
      match ReplaceMember(v.room, Get(data, "member"))
      case None => r == v
      case Some(room) =>
        r.room == room &&
        (PlayersInRoom(room).Some? ==> r.playersInRoom == PlayersInRoom(room).value) &&
        (PlayersInRoom(room).None? ==> r.playersInRoom == v.playersInRoom) &&
        r.(room := v.room, playersInRoom := v.playersInRoom) == v
  {
    if Nullish(data) || Nullish(Get(data, "member")) then v
    else match ReplaceMember(v.room, Get(data, "member"))
      case None => v
      case Some(room) =>
        match PlayersInRoom(room)
        case None => v.(room := room)
        case Some(n) => v.(room := room, playersInRoom := n)
  }

  /** Making a spectator a player adds one to the players count. */
  lemma {:induction false} PromotionCounts(members: seq<Json>, i: nat, member: Json)
    requires i < |members| && !Truthy(Get(members[i], "isPlayer")) && Truthy(Get(member, "isPlayer"))
    ensures PlayersCount(members[i := member]) == PlayersCount(members) + 1
  {
    if i > 0 {
      assert members[i := member][1..] == members[1..][i - 1 := member];
      PromotionCounts(members[1..], i - 1, member);
    } else {
      assert members[i := member][1..] == members[1..];
    }
  }
}
