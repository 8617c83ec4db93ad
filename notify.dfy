/** The notification dispatcher's text (`sendNotify`): the role mentions for
    a video and the message posted to the chat webhook. */
module Notify {

  /** One entry of the role roster: a channel key with its role id and the
      username looked for in titles. */
  datatype Role = Role(channelKey: string, roleId: string, username: string)

  /** One `sendNotify(cId, vId, title)` call; `title` is `""` when omitted. */
  datatype NotifyCall = NotifyCall(channelId: string, videoId: string, title: string)

  /** What separates the mentions from the watch link. */
  const LinkPrefix: string := " \n https://youtu.be/"

  /** `s.includes(sub)`: `sub` occurs in `s` (the empty string occurs everywhere). */
  predicate Contains(s: string, sub: string)
    decreases |s|
  {
    |sub| <= |s| && (s[..|sub|] == sub || (|s| > 0 && Contains(s[1..], sub)))
  }

  /** Reference definition of substring occurrence. */
  ghost predicate OccursAt(s: string, sub: string, i: int)
  {
    0 <= i && i + |sub| <= |s| && s[i..i + |sub|] == sub
  }

  lemma {:induction false} ContainsIff(s: string, sub: string)
    ensures Contains(s, sub) <==> exists i :: OccursAt(s, sub, i)
    decreases |s|
  {
    if |sub| <= |s| && s[..|sub|] != sub && |s| > 0 {
      ContainsIff(s[1..], sub);
      if i :| OccursAt(s[1..], sub, i) {
        assert s[i + 1..i + 1 + |sub|] == s[1..][i..i + |sub|];
        assert OccursAt(s, sub, i + 1);
      }
      if i :| OccursAt(s, sub, i) {
        assert i != 0;
        assert s[1..][i - 1..i - 1 + |sub|] == s[i..i + |sub|];
        assert OccursAt(s[1..], sub, i - 1);
      }
    } else if |sub| <= |s| && s[..|sub|] == sub {
      assert OccursAt(s, sub, 0);
    }
  }

  /** What one role adds to the mentions: its role id (with no separator)
      when the channel is its key, then a space and its role id again when
      the title contains its username. */
  function Token(r: Role, cId: string, title: string): string
  {
    (if cId == r.channelKey then r.roleId else "")
    + (if Contains(title, r.username) then " " + r.roleId else "")
  }

  /** `mentionTo` once the loop has visited `roles`. */
  function Mention(roles: seq<Role>, cId: string, title: string): string
  {
    if |roles| == 0 then ""
    else Mention(roles[..|roles| - 1], cId, title) + Token(roles[|roles| - 1], cId, title)
  }

  /** The message body posted for `call`. */
  function Message(roles: seq<Role>, call: NotifyCall): string
  {
    Mention(roles, call.channelId, call.title) + LinkPrefix + call.videoId
  }

  /** `sendNotify` up to the webhook post: builds and returns the message. */
  method SendNotify(roles: seq<Role>, cId: string, vId: string, title: string) returns (msg: string)
    ensures msg == Message(roles, NotifyCall(cId, vId, title))
  {
    var mentionTo := "";
    for i := 0 to |roles|
      invariant mentionTo == Mention(roles[..i], cId, title)
    {
      if cId == roles[i].channelKey {
        mentionTo := mentionTo + roles[i].roleId;
      }
      if Contains(title, roles[i].username) {
        mentionTo := mentionTo + " " + roles[i].roleId;
      }
      assert roles[..i + 1][..i] == roles[..i];
    }
    assert roles[..|roles|] == roles;
    msg := mentionTo + LinkPrefix + vId;
  }

  /** The mentions of a roster are those of its parts, in order. */
  lemma {:induction false} MentionAppend(a: seq<Role>, b: seq<Role>, cId: string, title: string)
    ensures Mention(a + b, cId, title) == Mention(a, cId, title) + Mention(b, cId, title)
    decreases |b|
  {
    if |b| == 0 {
      assert a + b == a;
    } else {
      var n := |b| - 1;
      var ab := a + b;
      assert ab[..|ab| - 1] == a + b[..n] && ab[|ab| - 1] == b[n];
      MentionAppend(a, b[..n], cId, title);
      var t := Token(b[n], cId, title);
      calc {
        Mention(ab, cId, title);
        Mention(a + b[..n], cId, title) + t;
        (Mention(a, cId, title) + Mention(b[..n], cId, title)) + t;
        Mention(a, cId, title) + (Mention(b[..n], cId, title) + t);
        Mention(a, cId, title) + Mention(b, cId, title);
      }
    }
  }

  /** Roles whose key is another channel and whose username is absent from
      the title mention nobody. */
  lemma {:induction false} MentionUnmatched(roles: seq<Role>, cId: string, title: string)
    requires forall i :: 0 <= i < |roles| ==> roles[i].channelKey != cId && !Contains(title, roles[i].username)
    ensures Mention(roles, cId, title) == ""
  {
    if |roles| > 0 {
      MentionUnmatched(roles[..|roles| - 1], cId, title);
    }
  }

  /** A call without a title (a just-published upload) mentions exactly the
      role of its own channel, given that channel keys are distinct and no
      username is empty. */
  lemma MentionUntitled(roles: seq<Role>, cId: string, k: nat)
    requires k < |roles| && roles[k].channelKey == cId
    requires forall j :: 0 <= j < |roles| && j != k ==> roles[j].channelKey != cId
    requires forall j :: 0 <= j < |roles| ==> roles[j].username != ""
    ensures Mention(roles, cId, "") == roles[k].roleId
  {
    var pre, post := roles[..k], roles[k + 1..];
    assert roles == pre + [roles[k]] + post;
    forall j | 0 <= j < |pre| ensures pre[j].channelKey != cId && !Contains("", pre[j].username) {
      assert pre[j] == roles[j];
    }
    forall j | 0 <= j < |post| ensures post[j].channelKey != cId && !Contains("", post[j].username) {
      assert post[j] == roles[k + 1 + j];
    }
    MentionUnmatched(pre, cId, "");
    MentionUnmatched(post, cId, "");
    MentionAppend(pre + [roles[k]], post, cId, "");
    MentionAppend(pre, [roles[k]], cId, "");
    assert Mention([roles[k]], cId, "") == Mention([], cId, "") + Token(roles[k], cId, "");
  }

  /** A role matched both by channel and by username is mentioned twice:
      mentions are not de-duplicated. */
  lemma MentionTwice(r: Role, title: string)
    requires Contains(title, r.username)
    ensures Mention([r], r.channelKey, title) == r.roleId + " " + r.roleId
  {
    assert [r][..0] == [];
  }
}
