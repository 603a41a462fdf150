/**
 * The reminder scheduler (internal/services/notifications.go,
 * checkAndSendNotifications and sendPush): once a minute it decides which
 * subscribers to remind, and a push answered "gone" or "not found" purges
 * that subscription from the store.
 *
 * One tick is modelled sequentially. The clock, time.LoadLocation and the
 * "15:04" formatting enter as a Clocks value; the environment's private key
 * is a parameter; the HTTP exchange enters as its outcome.
 */
module Scheduler {
  import opened Wrappers
  import opened Models
  import Dates
  import Vapid

  // ---------------------------------------------------------------------
  // One tick

  /** A wall clock in one zone: Go's Weekday() (Sunday = 0) and Format("15:04"). */
  datatype LocalClock = LocalClock(weekday: int, hhmm: string)

  /**
   * The current instant in every zone: `zones` holds the clock of each zone
   * name time.LoadLocation resolves; `utc` is the clock in UTC.
   */
  datatype Clocks = Clocks(zones: map<string, LocalClock>, utc: LocalClock)

  /** time.Now().In(location), an unresolvable zone name falling back to UTC. */
  function LocalNow(timezone: string, clocks: Clocks): LocalClock {
    if timezone in clocks.zones then clocks.zones[timezone] else clocks.utc
  }

  /** The trigger: the local weekday and the local "HH:MM" both match exactly. */
  predicate ShouldSend(sub: PushSubscription, clocks: Clocks)
    ensures sub.timezone in clocks.zones ==>
              (ShouldSend(sub, clocks) <==> clocks.zones[sub.timezone] == LocalClock(sub.reminderDay, sub.reminderTime))
    ensures sub.timezone !in clocks.zones ==>
              (ShouldSend(sub, clocks) <==> clocks.utc == LocalClock(sub.reminderDay, sub.reminderTime))
  {
    var now := LocalNow(sub.timezone, clocks);
    now.weekday == sub.reminderDay && now.hhmm == sub.reminderTime
  }

  /** The subscriptions the loop dispatches to, in list order. */
  function Due(subs: seq<PushSubscription>, clocks: Clocks): (due: seq<PushSubscription>)
    ensures |due| <= |subs|
    ensures forall x :: x in due <==> x in subs && ShouldSend(x, clocks)
    decreases |subs|
  {
    if subs == [] then []
    else
      var init, last := subs[..|subs| - 1], subs[|subs| - 1];
      assert subs == init + [last];
      Due(init, clocks) + (if ShouldSend(last, clocks) then [last] else [])
  }

  /** A subscriber whose zone does not resolve is judged on the UTC clock, and still judged. */
  lemma UnknownZoneUsesUtc(subs: seq<PushSubscription>, sub: PushSubscription, clocks: Clocks)
    requires sub in subs && sub.timezone !in clocks.zones
    ensures sub in Due(subs, clocks) <==> clocks.utc.weekday == sub.reminderDay && clocks.utc.hhmm == sub.reminderTime
  {
  }

  /** What one tick does: nothing for one of five reasons, or a push to each target. */
  datatype TickResult =
    | SubscriptionReadFailed
    | NoSubscriptions
    | WeekComplete(week: Date)
    | KeyMissing
    | KeyInvalid(cause: Vapid.KeyError)
    | Dispatch(key: Vapid.PrivateKey, targets: seq<PushSubscription>)

  /**
   * The tick. `subs` is the subscription read (None on error), `today` the
   * server's date, whose previous-or-same Sunday keys the current week, and
   * `privateKey` the VAPID_PRIVATE_KEY variable, decoded with `decode` and
   * checked with `onCurve` as in Vapid.DecodePrivateKey.
   */
  function Tick(
    subs: Option<seq<PushSubscription>>, tables: Tables, today: Date,
    privateKey: string, decode: string -> Option<seq<Vapid.byte>>, onCurve: seq<Vapid.byte> -> bool,
    clocks: Clocks): (r: TickResult)
    ensures subs.None? ==> r == SubscriptionReadFailed
    ensures subs == Some([]) ==> r == NoSubscriptions
    ensures tables.Complete(Dates.PreviousSunday(today)) ==> !r.Dispatch?
    ensures privateKey == "" ==> !r.Dispatch?
    ensures r.Dispatch? <==>
              && subs.Some? && subs.value != []
              && !tables.Complete(Dates.PreviousSunday(today))
              && privateKey != ""
              && Vapid.DecodePrivateKey(privateKey, decode, onCurve).Success?
    ensures r.Dispatch? ==>
              && r.key == Vapid.DecodePrivateKey(privateKey, decode, onCurve).value
              && forall x :: x in r.targets <==> x in subs.value && ShouldSend(x, clocks)
  {
    if subs.None? then SubscriptionReadFailed
    else if subs.value == [] then NoSubscriptions
    else
      var week := Dates.PreviousSunday(today);
      if tables.Complete(week) then WeekComplete(week)
      else if privateKey == "" then KeyMissing
      else match Vapid.DecodePrivateKey(privateKey, decode, onCurve)
        case Failure(e) => KeyInvalid(e)
        case Success(key) => Dispatch(key, Due(subs.value, clocks))
  }

  /**
   * checkAndSendNotifications: the gates as early returns, then one pass
   * over the subscriptions with a `shouldSend` flag per subscriber.
   */
  method CheckAndSendNotifications(
    subs: Option<seq<PushSubscription>>, tables: Tables, today: Date,
    privateKey: string, decode: string -> Option<seq<Vapid.byte>>, onCurve: seq<Vapid.byte> -> bool,
    clocks: Clocks) returns (r: TickResult)
    ensures r == Tick(subs, tables, today, privateKey, decode, onCurve, clocks)
  {
    if subs.None? {
      return SubscriptionReadFailed;
    }
    var all := subs.value;
    if |all| == 0 {
      return NoSubscriptions;
    }
    var currentWeekDate := Dates.PreviousSunday(today);
    if tables.Complete(currentWeekDate) {
      return WeekComplete(currentWeekDate);
    }
    if privateKey == "" {
      return KeyMissing;
    }
    var priv := Vapid.DecodePrivateKey(privateKey, decode, onCurve);
    if priv.Failure? {
      return KeyInvalid(priv.error);
    }

    var sent := DueSubscriptions(all, clocks);
    return Dispatch(priv.value, sent);
  }

  /** The loop of checkAndSendNotifications: one `shouldSend` decision per subscription, in order. */
  method DueSubscriptions(all: seq<PushSubscription>, clocks: Clocks) returns (sent: seq<PushSubscription>)
    ensures sent == Due(all, clocks)
  {
    sent := [];
    var k := 0;
    while k < |all|
      invariant 0 <= k <= |all|
      invariant sent == Due(all[..k], clocks)
    {
      var sub := all[k];
      var shouldSend := false;
      var now := if sub.timezone in clocks.zones then clocks.zones[sub.timezone] else clocks.utc;
      if now.weekday == sub.reminderDay && now.hhmm == sub.reminderTime {
        shouldSend := true;
      }
      assert all[..k + 1][..k] == all[..k];
      if shouldSend {
        sent := sent + [sub];
      }
      k := k + 1;
    }
    assert all[..k] == all;
  }

  // ---------------------------------------------------------------------
  // sendPush and the store

  /**
   * How one push ended: the endpoint URL did not parse, the token or the
   * request could not be built, the transport failed, or the push service
   * answered with a status code.
   */
  datatype PushOutcome = BadEndpoint | TokenFailed | RequestFailed | TransportFailed | Response(status: int)

  /** What sendPush makes of the outcome. */
  datatype Verdict = NotDelivered | Stale | Rejected(status: int) | Accepted(status: int)

  const StatusNotFound := 404
  const StatusGone := 410

  function Classify(outcome: PushOutcome): (v: Verdict)
    ensures v.Stale? <==> outcome.Response? && (outcome.status == StatusNotFound || outcome.status == StatusGone)
    ensures v.Rejected? <==> outcome.Response? && outcome.status >= 400 && outcome.status != StatusNotFound && outcome.status != StatusGone
    ensures v.NotDelivered? <==> !outcome.Response?
  {
    match outcome
    case Response(status) =>
      if status == StatusGone || status == StatusNotFound then Stale
      else if status >= 400 then Rejected(status)
      else Accepted(status)
    case _ => NotDelivered
  }

  /** The endpoints a sequence of pushes finds stale. */
  function StaleEndpoints(targets: seq<PushSubscription>, outcomes: seq<PushOutcome>): (r: set<string>)
    requires |targets| == |outcomes|
    ensures forall i :: 0 <= i < |targets| && Classify(outcomes[i]).Stale? ==> targets[i].endpoint in r
    ensures forall e :: e in r ==> exists i :: 0 <= i < |targets| && targets[i].endpoint == e && Classify(outcomes[i]).Stale?
    decreases |targets|
  {
    if targets == [] then {}
    else
      var n := |targets| - 1;
      var prev := StaleEndpoints(targets[..n], outcomes[..n]);
      prev + (if Classify(outcomes[n]).Stale? then {targets[n].endpoint} else {})
  }

  /** The push_subscriptions table: subscriptions keyed by their endpoint URL. */
  class SubscriptionStore {
    var subs: map<string, PushSubscription>

    /** Each subscription is filed under its own endpoint. */
    ghost predicate Valid()
      reads this
    {
      forall e :: e in subs ==> subs[e].endpoint == e
    }

    constructor (initial: map<string, PushSubscription>)
      requires forall e :: e in initial ==> initial[e].endpoint == e
      ensures Valid() && subs == initial
    {
      subs := initial;
    }

    /** DeletePushSubscription: removes that endpoint and nothing else. */
    method Delete(endpoint: string)
      requires Valid()
      modifies this
      ensures Valid()
      ensures subs == old(subs) - {endpoint}
    {
      subs := subs - {endpoint};
    }

    /**
     * sendPush's effect on the store: a 404 or 410 purges the pushed
     * endpoint; any other status, and every failure before a response,
     * leaves the store as it was.
     */
    method SendPush(sub: PushSubscription, outcome: PushOutcome) returns (v: Verdict)
      requires Valid()
      modifies this
      ensures Valid()
      ensures v == Classify(outcome)
      ensures v.Stale? ==> subs == old(subs) - {sub.endpoint}
      ensures !v.Stale? ==> subs == old(subs)
    {
      v := Classify(outcome);
      if v.Stale? {
        Delete(sub.endpoint);
      }
    }

    /**
     * One tick's pushes, one after another: exactly the endpoints found
     * stale are purged.
     */
    method Deliver(targets: seq<PushSubscription>, outcomes: seq<PushOutcome>)
      requires Valid() && |targets| == |outcomes|
      modifies this
      ensures Valid()
      ensures subs == old(subs) - StaleEndpoints(targets, outcomes)
      ensures forall e :: e in old(subs) && e !in subs ==>
                exists i :: 0 <= i < |targets| && targets[i].endpoint == old(subs)[e].endpoint && Classify(outcomes[i]).Stale?
      ensures forall i :: 0 <= i < |targets| && Classify(outcomes[i]).Stale? ==> targets[i].endpoint !in subs
    {
      var k := 0;
      while k < |targets|
        invariant 0 <= k <= |targets|
        invariant Valid()
        invariant subs == old(subs) - StaleEndpoints(targets[..k], outcomes[..k])
      {
        var _ := SendPush(targets[k], outcomes[k]);
        assert targets[..k + 1][..k] == targets[..k];
        assert outcomes[..k + 1][..k] == outcomes[..k];
        k := k + 1;
      }
      assert targets[..k] == targets && outcomes[..k] == outcomes;
    }
  }
}
