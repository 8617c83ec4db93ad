/** The transition engine (`script`): one polling run. The stored watchlist
    and the feed results form the candidate ids; their classification decides
    which notifications are sent and which list is written back. */
module Engine {
  import opened Wrappers
  import opened Seqs
  import opened OrderedMap
  import opened Feed
  import opened Classifier
  import opened Notify

  /** The state `script` builds up: the `sendNotify` calls made so far, the
      watchlist `inList` and the `update` flag. */
  datatype Outcome = Outcome(calls: seq<NotifyCall>, list: seq<string>, update: bool)

  /** The stored ids as candidates (they are never `false`). */
  function Lift(ids: seq<string>): seq<Option<string>>
  {
    seq(|ids|, i requires 0 <= i < |ids| => Some(ids[i]))
  }

  /** `latestIds`: `getRSS` for every channel key of the roster, in order;
      `fetchFeed` answers the feed request, None when it throws. */
  function LatestIds(roles: seq<Role>, fetchFeed: string -> Option<string>): seq<Option<string>>
  {
    seq(|roles|, i requires 0 <= i < |roles| => GetRss(fetchFeed(roles[i].channelKey)))
  }

  /** Entry `i` of `latestIds` answers the feed of the `i`-th channel key:
      `false` when its request threw, and otherwise `id` exactly when `id` is
      the capture of the leftmost match in that feed. */
  lemma LatestIdsSpec(roles: seq<Role>, fetchFeed: string -> Option<string>, i: nat, id: string)
    requires i < |roles|
    ensures |LatestIds(roles, fetchFeed)| == |roles|
    ensures fetchFeed(roles[i].channelKey).None? ==> LatestIds(roles, fetchFeed)[i].None?
    ensures var reply := fetchFeed(roles[i].channelKey);
      LatestIds(roles, fetchFeed)[i] == Some(id) <==>
        reply.Some? && exists p :: IsMatch(reply.value, p, id) && NoMatchIn(reply.value, 0, p)
  {
    var reply := fetchFeed(roles[i].channelKey);
    if reply.Some? {
      ExtractLeftmost(reply.value, id);
    }
  }

  /** `idsToCheck`: the stored ids followed by the feed results, each once. */
  function Candidates(stored: seq<string>, latest: seq<Option<string>>): (c: seq<Option<string>>)
    ensures NoDup(c)
    ensures forall x :: x in c <==> x in Lift(stored) || x in latest
  {
    Dedup(Lift(stored) + latest)
  }

  /** The `upcoming` step: the upcoming ids are added to the list, and
      `update` is set whenever there are any. */
  function MergeUpcoming(o: Outcome, upcoming: seq<string>): Outcome
  {
    if |upcoming| > 0 then o.(list := Dedup(o.list + upcoming), update := true) else o
  }

  /** One iteration of the `live` loop. */
  function LiveStep(o: Outcome, id: string, info: LiveInfo): Outcome
  {
    if id in o.list then
      Outcome(o.calls + [NotifyCall(info.channelId, id, info.title)], Without(o.list, id), true)
    else o
  }

  function FoldLive(o: Outcome, live: seq<(string, LiveInfo)>): Outcome
  {
    if |live| == 0 then o
    else
      var n := |live| - 1;
      LiveStep(FoldLive(o, live[..n]), live[n].0, live[n].1)
  }

  /** One iteration of the `none` loop: a call with the default empty title. */
  function NoneStep(o: Outcome, id: string, channelId: string): Outcome
  {
    o.(calls := o.calls + [NotifyCall(channelId, id, "")])
  }

  function FoldNone(o: Outcome, none: seq<(string, string)>): Outcome
  {
    if |none| == 0 then o
    else
      var n := |none| - 1;
      NoneStep(FoldNone(o, none[..n]), none[n].0, none[n].1)
  }

  /** What a run does once `getVidsDetails` has answered `v` (None is `{}`). */
  function Reconcile(stored: seq<string>, v: Option<Buckets>): Outcome
  {
    var start := Outcome([], stored, false);
    match v
    case None => start
    case Some(b) => FoldNone(FoldLive(MergeUpcoming(start, b.upcoming), b.live), b.none)
  }

  /** The message bodies `sendNotify` posts for `calls`, in order. */
  function Messages(roles: seq<Role>, calls: seq<NotifyCall>): (msgs: seq<string>)
    ensures |msgs| == |calls|
    ensures forall i :: 0 <= i < |calls| ==> msgs[i] == Message(roles, calls[i])
  {
    if |calls| == 0 then []
    else
      var n := |calls| - 1;
      assert forall i :: 0 <= i < n ==> calls[..n][i] == calls[i];
      Messages(roles, calls[..n]) + [Message(roles, calls[n])]
  }

  /** The `for (let id in live_v)` loop of `script`: each live id still in
      the list is notified, filtered out of the list, and sets `update`.
      `o` is the state before the loop and `sent` the messages posted so far. */
  method NotifyLive(roles: seq<Role>, live: seq<(string, LiveInfo)>, o: Outcome, sent: seq<string>)
    returns (r: Outcome, sent': seq<string>)
    requires sent == Messages(roles, o.calls)
    ensures r == FoldLive(o, live)
    ensures sent' == Messages(roles, r.calls)
  {
    var calls, inList, update := o.calls, o.list, o.update;
    sent' := sent;
    for i := 0 to |live|
      invariant Outcome(calls, inList, update) == FoldLive(o, live[..i])
      invariant sent' == Messages(roles, calls)
    {
      var id, info := live[i].0, live[i].1;
      if id in inList {
        var msg := SendNotify(roles, info.channelId, id, info.title);
        var call := NotifyCall(info.channelId, id, info.title);
        assert (calls + [call])[..|calls|] == calls;
        calls, sent' := calls + [call], sent' + [msg];
        inList := Without(inList, id);
        update := true;
      }
      assert live[..i + 1][..i] == live[..i];
    }
    assert live[..|live|] == live;
    r := Outcome(calls, inList, update);
  }

  /** The `for (let id in none_v)` loop of `script`: every just-published id
      is notified with the default empty title. */
  method NotifyJustPublished(roles: seq<Role>, none: seq<(string, string)>, o: Outcome, sent: seq<string>)
    returns (r: Outcome, sent': seq<string>)
    requires sent == Messages(roles, o.calls)
    ensures r == FoldNone(o, none)
    ensures sent' == Messages(roles, r.calls)
  {
    var calls := o.calls;
    sent' := sent;
    for i := 0 to |none|
      invariant o.(calls := calls) == FoldNone(o, none[..i])
      invariant sent' == Messages(roles, calls)
    {
      var id, channelId := none[i].0, none[i].1;
      var msg := SendNotify(roles, channelId, id, "");
      var call := NotifyCall(channelId, id, "");
      assert (calls + [call])[..|calls|] == calls;
      calls, sent' := calls + [call], sent' + [msg];
      assert none[..i + 1][..i] == none[..i];
    }
    assert none[..|none|] == none;
    r := o.(calls := calls);
  }

  /** `script`. The network and the file system are parameters: `fetchFeed`
      answers the feed requests, `stored` is what `getUpcomingVids` read and
      `fetchDetails` answers the metadata request for the candidate ids. The
      results are the `sendNotify` calls, the messages they post, the final
      list and flag, and what is written to the store (None: no write). */
  method Script(
    roles: seq<Role>,
    fetchFeed: string -> Option<string>,
    stored: seq<string>,
    fetchDetails: seq<Option<string>> -> DetailsReply,
    now: int)
    returns (calls: seq<NotifyCall>, sent: seq<string>, inList: seq<string>, update: bool,
             written: Option<seq<string>>)
    ensures Outcome(calls, inList, update)
         == Reconcile(stored, Classify(fetchDetails(Candidates(stored, LatestIds(roles, fetchFeed))), now))
    ensures sent == Messages(roles, calls)
    ensures written == if update then Some(inList) else None
  {
    var latestIds := LatestIds(roles, fetchFeed);
    inList := stored;
    var idsToCheck := Dedup(Lift(inList) + latestIds);
    var v := GetVidsDetails(fetchDetails(idsToCheck), now);
    update := false;
    calls, sent, written := [], [], None;

    if v.None? {
      return;
    }
    var b := v.value;
    if |b.upcoming| > 0 {
      inList := Dedup(inList + b.upcoming);
      update := true;
    }
    var run := Outcome(calls, inList, update);
    run, sent := NotifyLive(roles, b.live, run, sent);
    run, sent := NotifyJustPublished(roles, b.none, run, sent);
    calls, inList, update := run.calls, run.list, run.update;

    if update {
      written := Some(inList);
    }
  }

  // ---------------------------------------------------------------------
  // Reference definitions and the properties of a run

  /** Number of calls about video `id`. */
  function CallsFor(calls: seq<NotifyCall>, id: string): nat
  {
    if |calls| == 0 then 0
    else (if calls[0].videoId == id then 1 else 0) + CallsFor(calls[1..], id)
  }

  /** The calls the `live` loop makes, stated against a fixed list: one per
      live id the list holds, in bucket order. */
  function LiveCalls(list: seq<string>, live: seq<(string, LiveInfo)>): seq<NotifyCall>
  {
    if |live| == 0 then []
    else
      var n := |live| - 1;
      LiveCalls(list, live[..n])
      + (if live[n].0 in list then [NotifyCall(live[n].1.channelId, live[n].0, live[n].1.title)] else [])
  }

  /** The calls the `none` loop makes: one per entry, with an empty title. */
  function NoneCalls(none: seq<(string, string)>): seq<NotifyCall>
  {
    seq(|none|, i requires 0 <= i < |none| => NotifyCall(none[i].1, none[i].0, ""))
  }

  lemma {:induction false} CallsForAppend(a: seq<NotifyCall>, b: seq<NotifyCall>, id: string)
    ensures CallsFor(a + b, id) == CallsFor(a, id) + CallsFor(b, id)
  {
    if |a| == 0 {
      assert a + b == b;
    } else {
      assert (a + b)[1..] == a[1..] + b;
      CallsForAppend(a[1..], b, id);
    }
  }

  lemma KeysPrefix<V>(m: seq<(string, V)>)
    requires |m| > 0
    ensures Keys(m) == Keys(m[..|m| - 1]) + [m[|m| - 1].0]
  {
  }

  /** The last key of a map with distinct keys is not among the earlier ones. */
  lemma LastKeyFresh<V>(m: seq<(string, V)>)
    requires |m| > 0 && NoDup(Keys(m))
    ensures m[|m| - 1].0 !in Keys(m[..|m| - 1])
    ensures NoDup(Keys(m[..|m| - 1]))
  {
    var n := |m| - 1;
    KeysPrefix(m);
    NoDupPrefix(Keys(m), n);
    assert Keys(m[..n]) == Keys(m)[..n];
    forall j | 0 <= j < n ensures Keys(m)[j] != Keys(m)[n] { }
  }

  lemma {:induction false} FoldLiveCalls(o: Outcome, live: seq<(string, LiveInfo)>)
    requires NoDup(Keys(live))
    ensures FoldLive(o, live).calls == o.calls + LiveCalls(o.list, live)
    ensures FoldLive(o, live).list == Keep(o.list, Keys(live))
  {
    if |live| == 0 {
      KeepNothing(o.list);
    } else {
      var n := |live| - 1;
      var id, info := live[n].0, live[n].1;
      var r0 := FoldLive(o, live[..n]);
      LastKeyFresh(live);
      KeysPrefix(live);
      FoldLiveCalls(o, live[..n]);
      WithoutKeep(o.list, Keys(live[..n]), id);
      assert id in r0.list <==> id in o.list;
      assert FoldLive(o, live) == LiveStep(r0, id, info);
      assert LiveCalls(o.list, live)
          == LiveCalls(o.list, live[..n]) + (if id in o.list then [NotifyCall(info.channelId, id, info.title)] else []);
      if id in o.list {
        assert (o.calls + LiveCalls(o.list, live[..n])) + [NotifyCall(info.channelId, id, info.title)]
            == o.calls + LiveCalls(o.list, live);
      } else {
        assert Without(r0.list, id) == r0.list;
      }
    }
  }

  lemma {:induction false} FoldLiveUpdate(o: Outcome, live: seq<(string, LiveInfo)>)
    requires NoDup(Keys(live))
    ensures FoldLive(o, live).update == (o.update || exists i :: 0 <= i < |live| && live[i].0 in o.list)
  {
    if |live| > 0 {
      var n := |live| - 1;
      var id := live[n].0;
      LastKeyFresh(live);
      var r0 := FoldLive(o, live[..n]);
      FoldLiveUpdate(o, live[..n]);
      FoldLiveCalls(o, live[..n]);
      assert id in r0.list <==> id in o.list;
      assert FoldLive(o, live) == LiveStep(r0, id, live[n].1);
      assert FoldLive(o, live).update == (r0.update || id in o.list);
      assert (exists i :: 0 <= i < |live| && live[i].0 in o.list)
        <==> (exists i :: 0 <= i < n && live[..n][i].0 in o.list) || id in o.list
      by {
        if i :| 0 <= i < |live| && live[i].0 in o.list {
          if i < n { assert live[..n][i] == live[i]; }
        }
        if i :| 0 <= i < n && live[..n][i].0 in o.list {
          assert live[i] == live[..n][i];
        }
      }
    }
  }

  /** The `live` loop against its reference: it makes exactly the calls of
      `LiveCalls`, removes from the list exactly the live ids, and sets the
      flag exactly when some live id was listed. */
  lemma FoldLiveSpec(o: Outcome, live: seq<(string, LiveInfo)>)
    requires NoDup(Keys(live))
    ensures var r := FoldLive(o, live);
      && r.calls == o.calls + LiveCalls(o.list, live)
      && r.list == Keep(o.list, Keys(live))
      && r.update == (o.update || exists i :: 0 <= i < |live| && live[i].0 in o.list)
  {
    FoldLiveCalls(o, live);
    FoldLiveUpdate(o, live);
  }

  /** The `none` loop appends its calls and touches nothing else. */
  lemma {:induction false} FoldNoneSpec(o: Outcome, none: seq<(string, string)>)
    ensures FoldNone(o, none) == o.(calls := o.calls + NoneCalls(none))
  {
    if |none| == 0 {
      assert o.calls + NoneCalls(none) == o.calls;
    } else {
      var n := |none| - 1;
      FoldNoneSpec(o, none[..n]);
      assert NoneCalls(none) == NoneCalls(none[..n]) + [NotifyCall(none[n].1, none[n].0, "")];
    }
  }

  /** A live id is notified once if the list holds it and never otherwise. */
  lemma {:induction false} LiveCallsCount(list: seq<string>, live: seq<(string, LiveInfo)>, id: string)
    requires NoDup(Keys(live))
    ensures CallsFor(LiveCalls(list, live), id) == if id in list && id in Keys(live) then 1 else 0
  {
    if |live| > 0 {
      var n := |live| - 1;
      LastKeyFresh(live);
      KeysPrefix(live);
      LiveCallsCount(list, live[..n], id);
      var last := if live[n].0 in list then [NotifyCall(live[n].1.channelId, live[n].0, live[n].1.title)] else [];
      CallsForAppend(LiveCalls(list, live[..n]), last, id);
    }
  }

  /** Every just-published id is notified exactly once. */
  lemma {:induction false} NoneCallsCount(none: seq<(string, string)>, id: string)
    requires NoDup(Keys(none))
    ensures CallsFor(NoneCalls(none), id) == if id in Keys(none) then 1 else 0
  {
    if |none| > 0 {
      var n := |none| - 1;
      LastKeyFresh(none);
      KeysPrefix(none);
      NoneCallsCount(none[..n], id);
      assert NoneCalls(none) == NoneCalls(none[..n]) + [NotifyCall(none[n].1, none[n].0, "")];
      CallsForAppend(NoneCalls(none[..n]), [NotifyCall(none[n].1, none[n].0, "")], id);
    }
  }

  lemma {:induction false} LiveCallsHas(list: seq<string>, live: seq<(string, LiveInfo)>, i: nat)
    requires i < |live| && live[i].0 in list
    ensures NotifyCall(live[i].1.channelId, live[i].0, live[i].1.title) in LiveCalls(list, live)
  {
    var n := |live| - 1;
    if i < n {
      LiveCallsHas(list, live[..n], i);
      assert live[..n][i] == live[i];
    }
  }

  /** Merging the upcoming ids: calls are untouched, the list gains exactly
      the upcoming ids, a duplicate-free list keeps its order as a prefix, and
      `update` is set whenever the bucket is non-empty, even when every
      upcoming id was listed already and the list does not change. */
  lemma MergeUpcomingSpec(o: Outcome, upcoming: seq<string>)
    ensures var r := MergeUpcoming(o, upcoming);
      && r.calls == o.calls
      && (forall x :: x in r.list <==> x in o.list || x in upcoming)
      && r.update == (o.update || |upcoming| > 0)
      && (NoDup(o.list) || |upcoming| > 0 ==> NoDup(r.list))
      && (NoDup(o.list) ==> |o.list| <= |r.list| && r.list[..|o.list|] == o.list)
      && (NoDup(o.list) && (forall x :: x in upcoming ==> x in o.list) ==> r.list == o.list)
  {
    if |upcoming| > 0 && NoDup(o.list) {
      DedupAppend(o.list, upcoming);
      if forall x :: x in upcoming ==> x in o.list {
        InsertAllPresent(o.list, upcoming);
      }
    }
  }

  /** Merging the same upcoming ids a second time changes nothing. */
  lemma MergeUpcomingIdempotent(o: Outcome, upcoming: seq<string>)
    ensures MergeUpcoming(MergeUpcoming(o, upcoming), upcoming) == MergeUpcoming(o, upcoming)
  {
    if |upcoming| > 0 {
      UnionIdempotent(o.list, upcoming);
    }
  }

  /** The list after the `upcoming` step. */
  function Merged(stored: seq<string>, upcoming: seq<string>): seq<string>
  {
    MergeUpcoming(Outcome([], stored, false), upcoming).list
  }

  /** A whole run against its reference: the live calls then the
      just-published calls; the list is the merged list without the live
      ids; the flag is set when there were upcoming ids or a listed id went
      live. The `none` bucket changes neither the list nor the flag. */
  lemma ReconcileSpec(stored: seq<string>, b: Buckets)
    requires NoDup(Keys(b.live))
    ensures var r := Reconcile(stored, Some(b));
      && r.calls == LiveCalls(Merged(stored, b.upcoming), b.live) + NoneCalls(b.none)
      && r.list == Keep(Merged(stored, b.upcoming), Keys(b.live))
      && r.update == (|b.upcoming| > 0 || exists i :: 0 <= i < |b.live| && b.live[i].0 in stored)
  {
    var start := Outcome([], stored, false);
    var m := MergeUpcoming(start, b.upcoming);
    assert m.calls == [] && m.update == (|b.upcoming| > 0);
    assert |b.upcoming| == 0 ==> m.list == stored;
    assert Merged(stored, b.upcoming) == m.list;
    var swept := FoldLive(m, b.live);
    FoldLiveSpec(m, b.live);
    FoldNoneSpec(swept, b.none);
    assert Reconcile(stored, Some(b)) == FoldNone(swept, b.none);
    assert (exists i :: 0 <= i < |b.live| && b.live[i].0 in m.list) ==> |b.upcoming| > 0 || exists i :: 0 <= i < |b.live| && b.live[i].0 in stored;
  }

  /** `{}` from the classifier ends the run: no call, list unchanged, no write. */
  lemma ReconcileNoBatch(stored: seq<string>, reply: DetailsReply, now: int)
    requires reply == RequestFailed || reply == NoItems || reply == Items([])
    ensures Reconcile(stored, Classify(reply, now)) == Outcome([], stored, false)
  {
    ClassifyEmpty(reply, now);
  }

  /** A non-empty reply in which nothing qualifies runs the loops over three
      empty buckets: likewise no call and no write. */
  lemma ReconcileNothingQualifies(stored: seq<string>, videos: seq<VideoMeta>, now: int)
    requires |videos| > 0
    requires forall i :: 0 <= i < |videos| ==> TagOf(videos[i], now) == Untracked
    ensures Classify(Items(videos), now) == Some(NoBuckets)
    ensures Reconcile(stored, Classify(Items(videos), now)) == Outcome([], stored, false)
  {
    ClassifyEmpty(Items(videos), now);
  }

  /** The watchlist after a run holds the stored and upcoming ids except the
      live ones, and stays duplicate-free. */
  lemma ReconcileWatchlist(stored: seq<string>, b: Buckets)
    requires NoDup(Keys(b.live))
    ensures var r := Reconcile(stored, Some(b));
      && (forall x :: x in r.list <==> (x in stored || x in b.upcoming) && x !in Keys(b.live))
      && (NoDup(stored) || |b.upcoming| > 0 ==> NoDup(r.list))
  {
    ReconcileSpec(stored, b);
    MergeUpcomingSpec(Outcome([], stored, false), b.upcoming);
  }

  /** A live id is notified exactly once, with its channel and title, when
      the merged list holds it, and not at all otherwise; either way it is
      not in the list afterwards. */
  lemma ReconcileLiveId(stored: seq<string>, b: Buckets, i: nat)
    requires NoDup(Keys(b.live)) && NoDup(Keys(b.none))
    requires i < |b.live| && b.live[i].0 !in Keys(b.none)
    ensures var r := Reconcile(stored, Some(b)); var id := b.live[i].0;
      && CallsFor(r.calls, id) == (if id in stored || id in b.upcoming then 1 else 0)
      && (id in stored || id in b.upcoming ==> NotifyCall(b.live[i].1.channelId, id, b.live[i].1.title) in r.calls)
      && id !in r.list
      && (id in stored ==> r.update)
  {
    var id := b.live[i].0;
    var m := Merged(stored, b.upcoming);
    ReconcileSpec(stored, b);
    ReconcileWatchlist(stored, b);
    MergeUpcomingSpec(Outcome([], stored, false), b.upcoming);
    assert Keys(b.live)[i] == id;
    LiveCallsCount(m, b.live, id);
    NoneCallsCount(b.none, id);
    CallsForAppend(LiveCalls(m, b.live), NoneCalls(b.none), id);
    if id in m {
      LiveCallsHas(m, b.live, i);
    }
  }

  /** A just-published id is notified exactly once, with its channel and an
      empty title, whether or not it is listed. */
  lemma ReconcileNoneId(stored: seq<string>, b: Buckets, i: nat)
    requires NoDup(Keys(b.live)) && NoDup(Keys(b.none))
    requires i < |b.none| && b.none[i].0 !in Keys(b.live)
    ensures var r := Reconcile(stored, Some(b));
      && CallsFor(r.calls, b.none[i].0) == 1
      && NotifyCall(b.none[i].1, b.none[i].0, "") in r.calls
  {
    var id := b.none[i].0;
    var m := Merged(stored, b.upcoming);
    ReconcileSpec(stored, b);
    assert Keys(b.none)[i] == id;
    LiveCallsCount(m, b.live, id);
    NoneCallsCount(b.none, id);
    CallsForAppend(LiveCalls(m, b.live), NoneCalls(b.none), id);
    assert NoneCalls(b.none)[i] == NotifyCall(b.none[i].1, id, "");
  }

  /** The only way out of the list: a stored id missing after the run was
      live and was notified. */
  lemma ReconcileIdsLeaveOnlyWhenLive(stored: seq<string>, b: Buckets, x: string)
    requires NoDup(Keys(b.live))
    requires x in stored && x !in Reconcile(stored, Some(b)).list
    ensures x in Keys(b.live)
    ensures CallsFor(Reconcile(stored, Some(b)).calls, x) >= 1
  {
    var m := Merged(stored, b.upcoming);
    ReconcileSpec(stored, b);
    ReconcileWatchlist(stored, b);
    MergeUpcomingSpec(Outcome([], stored, false), b.upcoming);
    LiveCallsCount(m, b.live, x);
    CallsForAppend(LiveCalls(m, b.live), NoneCalls(b.none), x);
  }

  /** A run with no upcoming ids, no listed live id and no just-published id
      changes nothing and writes nothing (a live id never listed is skipped). */
  lemma ReconcileQuiet(stored: seq<string>, b: Buckets)
    requires NoDup(Keys(b.live))
    requires |b.upcoming| == 0 && b.none == []
    requires forall i :: 0 <= i < |b.live| ==> b.live[i].0 !in stored
    ensures Reconcile(stored, Some(b)) == Outcome([], stored, false)
  {
    ReconcileSpec(stored, b);
    LiveCallsNone(stored, b.live);
    KeepDisjoint(stored, Keys(b.live));
  }

  lemma {:induction false} LiveCallsNone(list: seq<string>, live: seq<(string, LiveInfo)>)
    requires forall i :: 0 <= i < |live| ==> live[i].0 !in list
    ensures LiveCalls(list, live) == []
  {
    if |live| > 0 {
      var n := |live| - 1;
      assert forall i :: 0 <= i < n ==> live[..n][i] == live[i];
      LiveCallsNone(list, live[..n]);
    }
  }

  lemma {:induction false} KeepDisjoint(s: seq<string>, drop: seq<string>)
    requires forall x :: x in drop ==> x !in s
    ensures Keep(s, drop) == s
  {
    if |s| > 0 {
      KeepDisjoint(s[1..], drop);
      assert [s[0]] + s[1..] == s;
    }
  }

  /** The live loop leaves the list and the calls alone unless it sets `update`. */
  lemma {:induction false} FoldLiveQuiet(o: Outcome, live: seq<(string, LiveInfo)>)
    ensures o.update ==> FoldLive(o, live).update
    ensures !FoldLive(o, live).update ==> FoldLive(o, live).list == o.list && FoldLive(o, live).calls == o.calls
  {
    if |live| > 0 {
      var n := |live| - 1;
      FoldLiveQuiet(o, live[..n]);
    }
  }

  /** Every change to the list sets `update`: a run that writes nothing
      leaves the in-memory list equal to the stored one, so the list the next
      run reads is the run's final list whether or not it was written. */
  lemma NoUpdateNoChange(stored: seq<string>, v: Option<Buckets>)
    ensures !Reconcile(stored, v).update ==> Reconcile(stored, v).list == stored
    ensures (if Reconcile(stored, v).update then Reconcile(stored, v).list else stored) == Reconcile(stored, v).list
  {
    if v.Some? {
      var b := v.value;
      var m := MergeUpcoming(Outcome([], stored, false), b.upcoming);
      FoldLiveQuiet(m, b.live);
      FoldNoneSpec(FoldLive(m, b.live), b.none);
      assert |b.upcoming| == 0 ==> m.list == stored;
    }
  }

  /** Notify-once across runs: after a live id has been notified and removed,
      the next run reads what the first one persisted (its list if `update`
      was set, the stored list otherwise); if the id is still live there (and
      neither upcoming nor just published) it is not notified again. */
  lemma NotifyOnceAcrossRuns(stored: seq<string>, b1: Buckets, b2: Buckets, id: string)
    requires NoDup(Keys(b1.live)) && NoDup(Keys(b2.live)) && NoDup(Keys(b2.none))
    requires id in Keys(b1.live)
    requires id !in b2.upcoming && id !in Keys(b2.none)
    ensures var r1 := Reconcile(stored, Some(b1));
      var next := if r1.update then r1.list else stored;
      CallsFor(Reconcile(next, Some(b2)).calls, id) == 0
  {
    var r1 := Reconcile(stored, Some(b1));
    NoUpdateNoChange(stored, Some(b1));
    var l1 := r1.list;
    assert (if r1.update then r1.list else stored) == l1;
    ReconcileWatchlist(stored, b1);
    var m := Merged(l1, b2.upcoming);
    MergeUpcomingSpec(Outcome([], l1, false), b2.upcoming);
    ReconcileSpec(l1, b2);
    LiveCallsCount(m, b2.live, id);
    NoneCallsCount(b2.none, id);
    CallsForAppend(LiveCalls(m, b2.live), NoneCalls(b2.none), id);
  }

  /** Candidate ids: duplicate-free; every stored id and every feed result
      (a failed feed being None) occurs exactly once; a duplicate-free stored
      list comes first, in its order. */
  lemma CandidatesOnce(stored: seq<string>, latest: seq<Option<string>>)
    ensures var c := Candidates(stored, latest);
      && (forall id :: id in stored ==> Count(c, Some(id)) == 1)
      && (forall y :: y in latest ==> Count(c, y) == 1)
      && (NoDup(stored) ==> |stored| <= |c| && c[..|stored|] == Lift(stored))
  {
    var c := Candidates(stored, latest);
    forall id | id in stored ensures Count(c, Some(id)) == 1 {
      var k :| 0 <= k < |stored| && stored[k] == id;
      assert Lift(stored)[k] == Some(id);
      NoDupCountOne(c, Some(id));
    }
    forall y | y in latest ensures Count(c, y) == 1 {
      NoDupCountOne(c, y);
    }
    if NoDup(stored) {
      assert NoDup(Lift(stored)) by {
        forall i, j | 0 <= i < j < |stored| ensures Lift(stored)[i] != Lift(stored)[j] { }
      }
      DedupAppend(Lift(stored), latest);
    }
  }

  /** End-to-end run: an upcoming id is added to an empty list, with no call. */
  lemma ScenarioUpcoming()
    ensures Reconcile([], Some(Buckets(["v1"], [], []))) == Outcome([], ["v1"], true)
  {
    assert [] + ["v1"] == ["v1"];
    assert ["v1"][1..] == [];
  }

  /** End-to-end run: a listed id goes live, is notified once and leaves the list. */
  lemma ScenarioListedGoesLive()
    ensures Reconcile(["v1"], Some(Buckets([], [("v1", LiveInfo("c1", "Stream"))], [])))
         == Outcome([NotifyCall("c1", "v1", "Stream")], [], true)
  {
    var live := [("v1", LiveInfo("c1", "Stream"))];
    assert live[..0] == [];
    assert ["v1"][1..] == [];
    assert Without(["v1"], "v1") == [];
  }

  /** End-to-end run: an id that goes live without ever being listed is skipped. */
  lemma ScenarioUnlistedGoesLive()
    ensures Reconcile([], Some(Buckets([], [("v9", LiveInfo("c9", "Other"))], []))) == Outcome([], [], false)
  {
    var live := [("v9", LiveInfo("c9", "Other"))];
    assert live[..0] == [];
  }

  /** End-to-end run: a fresh upload is notified with an empty title and the
      list is left as it was. */
  lemma ScenarioJustPublished(stored: seq<string>)
    ensures Reconcile(stored, Some(Buckets([], [], [("v5", "c2")])))
         == Outcome([NotifyCall("c2", "v5", "")], stored, false)
  {
    var none := [("v5", "c2")];
    FoldNoneSpec(Outcome([], stored, false), none);
    assert NoneCalls(none) == [NotifyCall("c2", "v5", "")];
    assert [] + [NotifyCall("c2", "v5", "")] == [NotifyCall("c2", "v5", "")];
  }
}
