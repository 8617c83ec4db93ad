/** The video classifier (`getVidsDetails`): one batched metadata reply is
    sorted into the `upcoming`, `live` and `none` (just published) buckets. */
module Classifier {
  import opened Wrappers
  import opened Seqs
  import opened OrderedMap

  /** A just-published upload is notified while it is younger than this (ms). */
  const FreshnessMs := 55000

  /** One item of the metadata reply. `hasLiveDetails` says whether the item
      carries `liveStreamingDetails`; times are milliseconds since the epoch. */
  datatype VideoMeta = VideoMeta(
    id: string,
    channelId: string,
    title: string,
    hasLiveDetails: bool,
    broadcastContent: string,
    publishedTime: int)

  /** What the `live` bucket keeps per video. */
  datatype LiveInfo = LiveInfo(channelId: string, title: string)

  /** `videos_data`: `upcoming` is an array, `live` and `none` are objects
      keyed by video id (`none` keeps only the channel id). */
  datatype Buckets = Buckets(
    upcoming: seq<string>,
    live: seq<(string, LiveInfo)>,
    none: seq<(string, string)>)

  const NoBuckets := Buckets([], [], [])

  /** The metadata request: it threw, it came back without an `items` field,
      or it came back with an `items` array. */
  datatype DetailsReply = RequestFailed | NoItems | Items(videos: seq<VideoMeta>)

  /** The bucket one item belongs to. */
  datatype Tag = Upcoming | Live | JustPublished | Untracked

  function TagOf(m: VideoMeta, now: int): Tag
  {
    if m.hasLiveDetails then
      if m.broadcastContent == "upcoming" then Upcoming
      else if m.broadcastContent == "live" then Live
      else Untracked
    else if now - m.publishedTime < FreshnessMs then JustPublished
    else Untracked
  }

  /** The body of the `forEach` callback, for one item. */
  function Place(b: Buckets, m: VideoMeta, now: int): Buckets
  {
    match TagOf(m, now)
    case Upcoming => b.(upcoming := b.upcoming + [m.id])
    case Live => b.(live := Put(b.live, m.id, LiveInfo(m.channelId, m.title)))
    case JustPublished => b.(none := Put(b.none, m.id, m.channelId))
    case Untracked => b
  }

  /** The buckets after the `forEach` has visited every item of `items`. */
  function ClassifyAll(items: seq<VideoMeta>, now: int): Buckets
  {
    if |items| == 0 then NoBuckets
    else Place(ClassifyAll(items[..|items| - 1], now), items[|items| - 1], now)
  }

  /** What `getVidsDetails` resolves to: None stands for the empty object `{}`. */
  function Classify(reply: DetailsReply, now: int): (r: Option<Buckets>)
    ensures r.None? <==> !reply.Items? || |reply.videos| == 0
  {
    match reply
    case Items(videos) => if |videos| > 0 then Some(ClassifyAll(videos, now)) else None
    case _ => None
  }

  /** `getVidsDetails` once the request has been answered by `reply`. */
  method GetVidsDetails(reply: DetailsReply, now: int) returns (v: Option<Buckets>)
    ensures v == Classify(reply, now)
  {
    if !reply.Items? {
      return None;
    }
    var videos := reply.videos;
    var upcoming: seq<string> := [];
    var live: seq<(string, LiveInfo)> := [];
    var none: seq<(string, string)> := [];
    if |videos| > 0 {
      for i := 0 to |videos|
        invariant Buckets(upcoming, live, none) == ClassifyAll(videos[..i], now)
      {
        var video := videos[i];
        if video.hasLiveDetails {
          if video.broadcastContent == "upcoming" {
            upcoming := upcoming + [video.id];
          } else if video.broadcastContent == "live" {
            live := Put(live, video.id, LiveInfo(video.channelId, video.title));
          }
        } else {
          if now - video.publishedTime < FreshnessMs {
            none := Put(none, video.id, video.channelId);
          }
        }
        assert videos[..i + 1][..i] == videos[..i];
      }
      assert videos[..|videos|] == videos;
      return Some(Buckets(upcoming, live, none));
    } else {
      return None;
    }
  }

  /** Some item of `items` has id `x` and belongs to bucket `t`. */
  ghost predicate HasTag(items: seq<VideoMeta>, x: string, t: Tag, now: int)
  {
    exists i :: 0 <= i < |items| && items[i].id == x && TagOf(items[i], now) == t
  }

  lemma HasTagSnoc(items: seq<VideoMeta>, x: string, t: Tag, now: int)
    requires |items| > 0
    ensures HasTag(items, x, t, now) <==>
              HasTag(items[..|items| - 1], x, t, now)
              || (items[|items| - 1].id == x && TagOf(items[|items| - 1], now) == t)
  {
    var init := items[..|items| - 1];
    if HasTag(init, x, t, now) {
      var i :| 0 <= i < |init| && init[i].id == x && TagOf(init[i], now) == t;
      assert items[i] == init[i];
    }
    if HasTag(items, x, t, now) {
      var i :| 0 <= i < |items| && items[i].id == x && TagOf(items[i], now) == t;
      if i < |init| { assert init[i] == items[i]; }
    }
  }

  lemma {:induction false} UpcomingMembers(items: seq<VideoMeta>, now: int)
    ensures forall x :: x in ClassifyAll(items, now).upcoming <==> HasTag(items, x, Upcoming, now)
  {
    if |items| > 0 {
      var n := |items| - 1;
      var b0, m := ClassifyAll(items[..n], now), items[n];
      UpcomingMembers(items[..n], now);
      assert ClassifyAll(items, now).upcoming
          == if TagOf(m, now) == Upcoming then b0.upcoming + [m.id] else b0.upcoming;
      forall x ensures HasTag(items, x, Upcoming, now) <==>
          HasTag(items[..n], x, Upcoming, now) || (m.id == x && TagOf(m, now) == Upcoming) {
        HasTagSnoc(items, x, Upcoming, now);
      }
    }
  }

  lemma {:induction false} LiveMembers(items: seq<VideoMeta>, now: int)
    ensures forall x :: x in Keys(ClassifyAll(items, now).live) <==> HasTag(items, x, Live, now)
    ensures NoDup(Keys(ClassifyAll(items, now).live))
  {
    if |items| > 0 {
      var n := |items| - 1;
      var b0, m := ClassifyAll(items[..n], now), items[n];
      LiveMembers(items[..n], now);
      var ks := Keys(ClassifyAll(items, now).live);
      if TagOf(m, now) == Live {
        var l := Put(b0.live, m.id, LiveInfo(m.channelId, m.title));
        assert ClassifyAll(items, now).live == l;
        PutNoDup(b0.live, m.id, LiveInfo(m.channelId, m.title));
        assert forall x :: x in ks <==> x in Keys(b0.live) || x == m.id;
      } else {
        assert ClassifyAll(items, now).live == b0.live;
      }
      forall x ensures HasTag(items, x, Live, now) <==>
          HasTag(items[..n], x, Live, now) || (m.id == x && TagOf(m, now) == Live) {
        HasTagSnoc(items, x, Live, now);
      }
    }
  }

  lemma {:induction false} NoneMembers(items: seq<VideoMeta>, now: int)
    ensures forall x :: x in Keys(ClassifyAll(items, now).none) <==> HasTag(items, x, JustPublished, now)
    ensures NoDup(Keys(ClassifyAll(items, now).none))
  {
    if |items| > 0 {
      var n := |items| - 1;
      var b0, m := ClassifyAll(items[..n], now), items[n];
      NoneMembers(items[..n], now);
      var ks := Keys(ClassifyAll(items, now).none);
      if TagOf(m, now) == JustPublished {
        var l := Put(b0.none, m.id, m.channelId);
        assert ClassifyAll(items, now).none == l;
        PutNoDup(b0.none, m.id, m.channelId);
        assert forall x :: x in ks <==> x in Keys(b0.none) || x == m.id;
      } else {
        assert ClassifyAll(items, now).none == b0.none;
      }
      forall x ensures HasTag(items, x, JustPublished, now) <==>
          HasTag(items[..n], x, JustPublished, now) || (m.id == x && TagOf(m, now) == JustPublished) {
        HasTagSnoc(items, x, JustPublished, now);
      }
    }
  }

  /** Bucket membership: an id is in a bucket exactly when some item with that
      id is classified into it; the two keyed buckets never repeat a key. */
  lemma ClassifyAllMembers(items: seq<VideoMeta>, now: int)
    ensures var b := ClassifyAll(items, now);
      && (forall x :: x in b.upcoming <==> HasTag(items, x, Upcoming, now))
      && (forall x :: x in Keys(b.live) <==> HasTag(items, x, Live, now))
      && (forall x :: x in Keys(b.none) <==> HasTag(items, x, JustPublished, now))
      && NoDup(Keys(b.live)) && NoDup(Keys(b.none))
  {
    UpcomingMembers(items, now);
    LiveMembers(items, now);
    NoneMembers(items, now);
  }

  /** The `live` bucket holds, for each id, the channel and title of the last
      item with that id classified live (a later assignment overwrites). */
  lemma {:induction false} ClassifyAllLiveValue(items: seq<VideoMeta>, now: int, i: nat)
    requires i < |items| && TagOf(items[i], now) == Live
    requires forall j :: i < j < |items| && items[j].id == items[i].id ==> TagOf(items[j], now) != Live
    ensures Lookup(ClassifyAll(items, now).live, items[i].id) == Some(LiveInfo(items[i].channelId, items[i].title))
  {
    var n := |items| - 1;
    var b0, m := ClassifyAll(items[..n], now), items[n];
    if TagOf(m, now) == Live {
      assert ClassifyAll(items, now).live == Put(b0.live, m.id, LiveInfo(m.channelId, m.title));
    } else {
      assert ClassifyAll(items, now).live == b0.live;
    }
    if i < n {
      assert items[..n][i] == items[i];
      assert forall j :: i < j < n ==> items[..n][j] == items[j];
      ClassifyAllLiveValue(items[..n], now, i);
      assert TagOf(m, now) == Live ==> m.id != items[i].id;
    }
  }


  /** Likewise, the `none` bucket holds the channel of the last fresh upload
      with that id. */
  lemma {:induction false} ClassifyAllNoneValue(items: seq<VideoMeta>, now: int, i: nat)
    requires i < |items| && TagOf(items[i], now) == JustPublished
    requires forall j :: i < j < |items| && items[j].id == items[i].id ==> TagOf(items[j], now) != JustPublished
    ensures Lookup(ClassifyAll(items, now).none, items[i].id) == Some(items[i].channelId)
  {
    var n := |items| - 1;
    var b0, m := ClassifyAll(items[..n], now), items[n];
    if TagOf(m, now) == JustPublished {
      assert ClassifyAll(items, now).none == Put(b0.none, m.id, m.channelId);
    } else {
      assert ClassifyAll(items, now).none == b0.none;
    }
    if i < n {
      assert items[..n][i] == items[i];
      assert forall j :: i < j < n ==> items[..n][j] == items[j];
      ClassifyAllNoneValue(items[..n], now, i);
      assert TagOf(m, now) == JustPublished ==> m.id != items[i].id;
    }
  }


  /** The ids of a reply are distinct (one item per requested id). */
  ghost predicate DistinctIds(items: seq<VideoMeta>)
  {
    forall i, j :: 0 <= i < j < |items| ==> items[i].id != items[j].id
  }

  /** With distinct ids, no video lands in two buckets. */
  lemma ClassifyAllDisjoint(items: seq<VideoMeta>, now: int)
    requires DistinctIds(items)
    ensures var b := ClassifyAll(items, now);
      && (forall x :: x in b.upcoming ==> x !in Keys(b.live) && x !in Keys(b.none))
      && (forall x :: x in Keys(b.live) ==> x !in Keys(b.none))
  {
    ClassifyAllMembers(items, now);
    forall x, t, u | HasTag(items, x, t, now) && HasTag(items, x, u, now) ensures t == u {
      var i :| 0 <= i < |items| && items[i].id == x && TagOf(items[i], now) == t;
      var j :| 0 <= j < |items| && items[j].id == x && TagOf(items[j], now) == u;
      assert i == j;
    }
  }

  /** The request failing, a reply without items and an empty items array all
      give `{}`; a non-empty reply in which nothing qualifies gives three empty
      buckets instead. */
  lemma ClassifyEmpty(reply: DetailsReply, now: int)
    ensures reply == RequestFailed || reply == NoItems || reply == Items([]) ==> Classify(reply, now) == None
    ensures (reply.Items? && |reply.videos| > 0
             && forall i :: 0 <= i < |reply.videos| ==> TagOf(reply.videos[i], now) == Untracked)
            ==> Classify(reply, now) == Some(NoBuckets)
  {
    if reply.Items? && |reply.videos| > 0 && (forall i :: 0 <= i < |reply.videos| ==> TagOf(reply.videos[i], now) == Untracked) {
      NothingQualifies(reply.videos, now);
    }
  }

  lemma {:induction false} NothingQualifies(items: seq<VideoMeta>, now: int)
    requires forall i :: 0 <= i < |items| ==> TagOf(items[i], now) == Untracked
    ensures ClassifyAll(items, now) == NoBuckets
  {
    if |items| > 0 {
      NothingQualifies(items[..|items| - 1], now);
    }
  }
}
