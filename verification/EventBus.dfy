// The numbered event bus with its bounded history (src/events.rs).

module EventBus {
  import opened Options
  import opened Events

  datatype Sequenced = Sequenced(id: nat, event: TileEvent)

  const EVENT_HISTORY: nat := 256

  // Events of a log with the ids `from + 1` to `upto`: ids count from 1.
  function Numbered(log: seq<TileEvent>, from: nat, upto: nat): seq<Sequenced>
    requires from <= upto <= |log|
  {
    seq(upto - from, i requires 0 <= i < upto - from => Sequenced(from + i + 1, log[from + i]))
  }

  lemma NumberedJoins(log: seq<TileEvent>, a: nat, b: nat, c: nat)
    requires a <= b <= c <= |log|
    ensures Numbered(log, a, b) + Numbered(log, b, c) == Numbered(log, a, c)
  {}

  // What is retained after n events: the last of them.
  function Retained(n: nat): nat { Min(EVENT_HISTORY, n) }

  // `complete` says nothing was missed; the receiver goes on after `latestId`.
  datatype Subscription = Subscription(replay: seq<Sequenced>, latestId: nat, complete: bool)

  function After(s: seq<Sequenced>, since: nat): seq<Sequenced> {
    if s == [] then []
    else (if s[0].id > since then [s[0]] else []) + After(s[1..], since)
  }

  lemma NumberedHead(log: seq<TileEvent>, from: nat, upto: nat)
    requires from < upto <= |log|
    ensures Numbered(log, from, upto) == [Sequenced(from + 1, log[from])] + Numbered(log, from + 1, upto)
  {}

  lemma AfterHead(x: Sequenced, rest: seq<Sequenced>, since: nat)
    ensures After([x] + rest, since) == (if x.id > since then [x] else []) + After(rest, since)
  {
    assert ([x] + rest)[1..] == rest;
  }

  // Filtering by id is a later start.
  lemma {:induction false} AfterNumbered(log: seq<TileEvent>, from: nat, upto: nat, since: nat)
    requires from <= upto <= |log|
    ensures After(Numbered(log, from, upto), since) == Numbered(log, Min(Max(since, from), upto), upto)
    decreases upto - from
  {
    if from < upto {
      hide Numbered, After;
      NumberedHead(log, from, upto);
      AfterHead(Sequenced(from + 1, log[from]), Numbered(log, from + 1, upto), since);
      AfterNumbered(log, from + 1, upto, since);
    }
  }

  class Bus {
    var latestId: nat
    var recent: seq<Sequenced>
    ghost var log: seq<TileEvent>   // every event ever sent

    // The history is exactly the last events, consecutively numbered.
    ghost predicate Valid()
      reads this
    {
      latestId == |log| && recent == Numbered(log, |log| - Retained(|log|), |log|)
    }

    constructor ()
      ensures Valid() && log == []
    {
      latestId, recent, log := 0, [], [];
    }

    // `send`: numbers, records and broadcasts.
    method Send(event: TileEvent) returns (sent: Sequenced)
      requires Valid()
      modifies this
      ensures Valid() && log == old(log) + [event]
      ensures sent == Sequenced(|log|, event)
      ensures recent == Numbered(log, if |log| > 256 then |log| - 256 else 0, |log|)
    {
      latestId := latestId + 1;
      sent := Sequenced(latestId, event);
      if |recent| == EVENT_HISTORY { recent := recent[1..]; }
      recent := recent + [sent];
      log := log + [event];
    }

    // `subscribe_since`: complete exactly when the id is known and no later event
    // has been dropped, and then the replay is every later event in order.
    method SubscribeSince(since: Option<nat>) returns (s: Subscription)
      requires Valid()
      ensures s.latestId == |log|
      ensures since.None? ==> s.complete && s.replay == []
      ensures since.Some? ==> (s.complete <==>
        since.value <= |log| && !exists id {:trigger Dropped(log, id)} :: since.value < id && Dropped(log, id))
      ensures since.Some? ==> (s.complete <==> since.value <= |log| <= since.value + 256)
      ensures since.Some? && s.complete ==> s.replay == Numbered(log, since.value, |log|)
      ensures since.Some? && !s.complete ==> s.replay == if since.value > |log| then [] else recent
    {
      if since.None? { return Subscription([], latestId, true); }
      var oldest := if recent == [] then latestId + 1 else recent[0].id;
      var complete := since.value <= latestId && since.value + 1 >= oldest;
      ghost var kept := |log| - Retained(|log|);
      AfterNumbered(log, kept, |log|, since.value);
      assert since.value < kept ==> Dropped(log, kept);
      s := Subscription(After(recent, since.value), latestId, complete);
    }
  }

  // An event no longer retained.
  predicate Dropped(log: seq<TileEvent>, id: nat) {
    1 <= id <= |log| - Retained(|log|)
  }

  // A complete replay followed by a receiver that never lags yields every event
  // after the requested id once, in order.
  lemma ReplayThenReceive(atSubscribe: seq<TileEvent>, since: nat, s: Subscription, later: seq<TileEvent>)
    requires since <= |atSubscribe| && s.latestId == |atSubscribe| && s.replay == Numbered(atSubscribe, since, |atSubscribe|)
    ensures var log := atSubscribe + later;
      s.replay + Numbered(log, s.latestId, |log|) == Numbered(log, since, |log|)
  {
    var log := atSubscribe + later;
    assert s.replay == Numbered(log, since, |atSubscribe|);
    NumberedJoins(log, since, |atSubscribe|, |log|);
  }
}
