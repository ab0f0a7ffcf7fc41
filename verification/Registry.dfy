/**
 Queue keys of the action registry.

 An action carries a key template such as `room:{room_id}`, and the concrete
 queue key is obtained by textual substitution from the call's arguments. Two
 commands are serialised by the broker exactly when their keys are equal, so
 what matters is when the substitution separates or identifies commands.
 */
module Registry {
  import opened Prelude
  import opened Texts

  const ROOM_HOLE := "{room_id}"
  const USER_HOLE := "{user_id}"
  const ROOM_TEMPLATE := "room:{room_id}"

  /** Actions that may only run through the Job API. */
  predicate IsJobOnly(id: string) {
    id in {"pmp.update.check", "pmp.update.apply", "pmp.update.cancel", "pmp.update.force"}
  }

  // ---------------------------------------------------------------------
  // Text substitution
  // ---------------------------------------------------------------------

  /** The number of occurrences that `ReplaceAll` replaces. */
  function Hits(s: string, pat: string): nat
    requires pat != ""
  {
    if s == "" then 0
    else if StartsWith(s, pat) then 1 + Hits(s[|pat|..], pat)
    else Hits(s[1..], pat)
  }

  /** Making the replacement one character longer lengthens the text by one per occurrence. */
  lemma {:induction false} ReplaceLength(s: string, pat: string, with: string, c: char)
    requires pat != ""
    ensures |ReplaceAll(s, pat, with + [c])| == |ReplaceAll(s, pat, with)| + Hits(s, pat)
  {
    if s == "" {
    } else if StartsWith(s, pat) {
      ReplaceLength(s[|pat|..], pat, with, c);
    } else {
      ReplaceLength(s[1..], pat, with, c);
    }
  }

  lemma {:induction false} ReplaceAbsent(s: string, pat: string, with: string)
    requires pat != "" && !Contains(s, pat)
    ensures ReplaceAll(s, pat, with) == s
  {
    if s != "" {
      assert s[0..] == s;
      assert !Contains(s[1..], pat) by {
        forall i | 0 <= i <= |s[1..]| ensures !StartsWith(s[1..][i..], pat) {
          assert s[1..][i..] == s[i + 1..];
        }
      }
      ReplaceAbsent(s[1..], pat, with);
    }
  }

  lemma {:induction false} HitsIffContains(s: string, pat: string)
    requires pat != ""
    ensures Hits(s, pat) > 0 <==> Contains(s, pat)
  {
    if s == "" {
    } else if StartsWith(s, pat) {
      assert s[0..] == s;
    } else {
      HitsIffContains(s[1..], pat);
      if Contains(s[1..], pat) {
        var i :| 0 <= i <= |s[1..]| && StartsWith(s[1..][i..], pat);
        assert s[1..][i..] == s[i + 1..];
      }
      if Contains(s, pat) {
        var i :| 0 <= i <= |s| && StartsWith(s[i..], pat);
        assert s[0..] == s;
        assert s[1..][i - 1..] == s[i..];
      }
    }
  }

  /** Text before the first character of the pattern is copied through. */
  lemma {:induction false} ReplaceAfterPrefix(p: string, s: string, pat: string, with: string)
    requires pat != "" && pat[0] !in p
    ensures ReplaceAll(p + s, pat, with) == p + ReplaceAll(s, pat, with)
  {
    if p == "" {
      assert p + s == s;
    } else {
      assert (p + s)[1..] == p[1..] + s;
      assert (p + s)[0] == p[0] != pat[0];
      ReplaceAfterPrefix(p[1..], s, pat, with);
    }
  }

  // ---------------------------------------------------------------------
  // Queue keys
  // ---------------------------------------------------------------------

  /**
   `roomId` is `args.room_id` when it is a JSON string, `userId` the JSON text
   of `args.user_id` when that member is present.
   */
  function ResolveQueueKey(template: string, roomId: Option<string>, userId: Option<string>): string {
    if '{' !in template then template
    else
      var key := match roomId { case Some(r) => ReplaceAll(template, ROOM_HOLE, r) case None => template };
      match userId { case Some(u) => ReplaceAll(key, USER_HOLE, u) case None => key }
  }

  /** A template without a hole is its own key, and without a room id the hole stays. */
  lemma FixedKeys(template: string, roomId: Option<string>, userId: Option<string>)
    ensures '{' !in template ==> ResolveQueueKey(template, roomId, userId) == template
    ensures ResolveQueueKey("room:{room_id}", None, userId) == "room:{room_id}"
  {
    var key := ROOM_TEMPLATE;
    assert key[5] == '{' && key[6] == 'r' && forall k :: 0 <= k < |key| && k != 5 ==> key[k] != '{';
    assert forall i :: 0 <= i <= |key| ==> !StartsWith(key[i..], USER_HOLE);
    if userId.Some? {
      ReplaceAbsent(key, USER_HOLE, userId.value);
    }
  }

  /** What the two substitutions leave of a room template. */
  lemma RoomKeyText(room: string, userId: Option<string>)
    ensures ResolveQueueKey("room:{room_id}", Some(room), userId)
         == "room:" + (match userId { case Some(u) => ReplaceAll(room, "{user_id}", u) case None => room })
  {
    assert ROOM_TEMPLATE == "room:" + ROOM_HOLE;
    assert ROOM_TEMPLATE[5] == '{';
    ReplaceAfterPrefix("room:", ROOM_HOLE, ROOM_HOLE, room);
    assert ROOM_HOLE[|ROOM_HOLE|..] == "";
    assert ROOM_HOLE[..|ROOM_HOLE|] == ROOM_HOLE;
    assert ReplaceAll(ROOM_HOLE, ROOM_HOLE, room) == room + ReplaceAll("", ROOM_HOLE, room) == room;
    if userId.Some? {
      ReplaceAfterPrefix("room:", room, USER_HOLE, userId.value);
    }
  }

  /**
   Commands aimed at the same room share a queue, whatever their `user_id`
   argument is, exactly when the room id does not itself contain `{user_id}`.
   */
  lemma RoomKeyIgnoresUserIff(room: string)
    ensures (forall u: Option<string>, v: Option<string> ::
               ResolveQueueKey("room:{room_id}", Some(room), u) == ResolveQueueKey("room:{room_id}", Some(room), v))
       <==> !Contains(room, "{user_id}")
  {
    if Contains(room, USER_HOLE) {
      HitsIffContains(room, USER_HOLE);
      var u, v := Some("1"), Some("10");
      RoomKeyText(room, u);
      RoomKeyText(room, v);
      ReplaceLength(room, USER_HOLE, "1", '0');
      assert "1" + ['0'] == "10";
      var key1 := ResolveQueueKey(ROOM_TEMPLATE, Some(room), u);
      var key2 := ResolveQueueKey(ROOM_TEMPLATE, Some(room), v);
      assert |key1| != |key2|;
    } else {
      forall u: Option<string>, v: Option<string>
        ensures ResolveQueueKey(ROOM_TEMPLATE, Some(room), u) == ResolveQueueKey(ROOM_TEMPLATE, Some(room), v)
      {
        RoomKeyText(room, u);
        RoomKeyText(room, v);
        if u.Some? { ReplaceAbsent(room, USER_HOLE, u.value); }
        if v.Some? { ReplaceAbsent(room, USER_HOLE, v.value); }
      }
    }
  }

  /** Different rooms never share a queue, so long as neither id contains the user hole. */
  lemma RoomKeysSeparateRooms(room1: string, u: Option<string>, room2: string, v: Option<string>)
    requires !Contains(room1, "{user_id}") && !Contains(room2, "{user_id}")
    ensures ResolveQueueKey("room:{room_id}", Some(room1), u) == ResolveQueueKey("room:{room_id}", Some(room2), v)
       <==> room1 == room2
  {
    RoomKeyText(room1, u);
    RoomKeyText(room2, v);
    if u.Some? { ReplaceAbsent(room1, USER_HOLE, u.value); }
    if v.Some? { ReplaceAbsent(room2, USER_HOLE, v.value); }
    var k1 := ResolveQueueKey(ROOM_TEMPLATE, Some(room1), u);
    var k2 := ResolveQueueKey(ROOM_TEMPLATE, Some(room2), v);
    assert k1[5..] == room1 && k2[5..] == room2;
  }
}
