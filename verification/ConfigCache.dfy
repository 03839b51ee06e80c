/** The per-isolate settings cache (src/services/server-config.ts) as an interleaving. */
module ConfigCache {
  import opened Base

  const TTL_MS: int := 10_000

  type Overrides = map<string, string>
  const NO_OVERRIDES: Overrides := map[]

  datatype Write = Write(at: int, data: Overrides)

  /** A cache entry; `asOf` is when its data was read from or written to the row, `failed` that the read failed. */
  datatype Cached = Cached(at: int, data: Overrides, asOf: int, failed: bool)

  /** A call between two of its steps. */
  datatype Call =
    | Missed(isolate: Id, now: int)
    | Fetched(isolate: Id, now: int, data: Overrides, asOf: int, failed: bool)
    | Written(isolate: Id, data: Overrides, asOf: int)

  /** `history` holds every write of the row, the first entry being its initial value. */
  datatype Sys = Sys(clock: int, history: seq<Write>, caches: map<Id, Cached>, calls: map<Id, Call>)

  datatype Event =
    | Tick(ms: nat)
    /** A get that misses: it has read the clock. */
    | GetStart(call: Id, isolate: Id)
    | GetRead(call: Id, succeeds: bool)
    | GetWrite(call: Id)
    /** A save, or a clear with no overrides: first the row, then the isolate's own cache. */
    | SaveWrite(call: Id, isolate: Id, data: Overrides)
    | SaveCache(call: Id)

  function Stored(s: Sys): Overrides
    requires s.history != []
  {
    s.history[|s.history| - 1].data
  }

  /** The cached value a get returns without touching the row. */
  function Served(s: Sys, isolate: Id): Option<Overrides> {
    if isolate in s.caches && s.clock - s.caches[isolate].at < TTL_MS then Some(s.caches[isolate].data) else None
  }

  /** Saves that take longer than `slack` between their two steps are outside the bound. */
  predicate Enabled(s: Sys, e: Event, slack: int) {
    match e
    case Tick(_) => true
    case GetStart(c, i) => c !in s.calls && Served(s, i).None?
    case GetRead(c, _) => c in s.calls && s.calls[c].Missed?
    case GetWrite(c) => c in s.calls && s.calls[c].Fetched?
    case SaveWrite(c, _, _) => c !in s.calls
    case SaveCache(c) => c in s.calls && s.calls[c].Written? && s.clock - s.calls[c].asOf <= slack
  }

  function Step(s: Sys, e: Event, slack: int): (t: Sys)
    requires s.history != []
    ensures t.history != []
  {
    if !Enabled(s, e, slack) then s
    else match e
      case Tick(ms) => s.(clock := s.clock + ms)
      case GetStart(c, i) => s.(calls := s.calls[c := Missed(i, s.clock)])
      case GetRead(c, ok) =>
        s.(calls := s.calls[c := Fetched(s.calls[c].isolate, s.calls[c].now, if ok then Stored(s) else NO_OVERRIDES, s.clock, !ok)])
      case GetWrite(c) =>
        var g := s.calls[c];
        s.(caches := s.caches[g.isolate := Cached(g.now, g.data, g.asOf, g.failed)], calls := s.calls - {c})
      case SaveWrite(c, i, data) =>
        s.(history := s.history + [Write(s.clock, data)], calls := s.calls[c := Written(i, data, s.clock)])
      case SaveCache(c) =>
        var w := s.calls[c];
        s.(caches := s.caches[w.isolate := Cached(s.clock, w.data, w.asOf, false)], calls := s.calls - {c})
  }

  function Run(s: Sys, events: seq<Event>, slack: int): (r: Sys)
    requires s.history != []
    ensures r.history != []
    decreases |events|
  {
    if events == [] then s else Run(Step(s, events[0], slack), events[1..], slack)
  }

  // ---------------------------------------------------------------------
  // Whatever is cached was stored
  // ---------------------------------------------------------------------

  /** Write `k` put `data` in the row and it was still there at `moment`. */
  ghost predicate StoredBy(history: seq<Write>, k: nat, data: Overrides, moment: int) {
    k < |history| && history[k].data == data && history[k].at <= moment
    && (k + 1 < |history| ==> moment <= history[k + 1].at)
  }

  ghost predicate WasStored(history: seq<Write>, data: Overrides, moment: int) {
    exists k :: StoredBy(history, k, data, moment)
  }

  ghost predicate EntryOk(s: Sys, at: int, data: Overrides, asOf: int, failed: bool, slack: int) {
    at - slack <= asOf <= s.clock && (failed || WasStored(s.history, data, asOf))
  }

  ghost predicate CallOk(s: Sys, c: Call, slack: int) {
    match c
    case Missed(_, now) => now <= s.clock
    case Fetched(_, now, data, asOf, failed) => EntryOk(s, now, data, asOf, failed, 0)
    case Written(_, data, asOf) => asOf <= s.clock && WasStored(s.history, data, asOf)
  }

  ghost predicate Inv(s: Sys, slack: int) {
    && s.history != [] && slack >= 0
    && (forall w | w in s.history :: w.at <= s.clock)
    && (forall i | i in s.caches :: EntryOk(s, s.caches[i].at, s.caches[i].data, s.caches[i].asOf, s.caches[i].failed, slack))
    && (forall c | c in s.calls :: CallOk(s, s.calls[c], slack))
  }

  lemma LastIsStored(s: Sys, slack: int)
    requires Inv(s, slack)
    ensures WasStored(s.history, Stored(s), s.clock)
  {
    assert StoredBy(s.history, |s.history| - 1, Stored(s), s.clock);
  }

  /** A later write does not change what was stored before it. */
  lemma StoredStays(history: seq<Write>, w: Write, data: Overrides, moment: int)
    requires WasStored(history, data, moment) && moment <= w.at
    ensures WasStored(history + [w], data, moment)
  {
    var k: nat :| StoredBy(history, k, data, moment);
    assert StoredBy(history + [w], k, data, moment);
  }

  lemma SaveWriteKeepsInv(s: Sys, e: Event, slack: int)
    requires Inv(s, slack) && e.SaveWrite? && Enabled(s, e, slack)
    ensures Inv(Step(s, e, slack), slack)
  {
    var t := Step(s, e, slack);
    var w := Write(s.clock, e.data);
    assert t.history == s.history + [w];
    forall data, moment | WasStored(s.history, data, moment) && moment <= s.clock
      ensures WasStored(t.history, data, moment)
    {
      StoredStays(s.history, w, data, moment);
    }
    assert StoredBy(t.history, |s.history|, e.data, s.clock);
  }

  lemma StepKeepsInv(s: Sys, e: Event, slack: int)
    requires Inv(s, slack)
    ensures Inv(Step(s, e, slack), slack)
  {
    if Enabled(s, e, slack) {
      if e.SaveWrite? { SaveWriteKeepsInv(s, e, slack); }
      if e.GetRead? { LastIsStored(s, slack); }
    }
  }

  lemma {:induction false} RunKeepsInv(s: Sys, events: seq<Event>, slack: int)
    requires Inv(s, slack)
    ensures Inv(Run(s, events, slack), slack)
    decreases |events|
  {
    if events != [] {
      StepKeepsInv(s, events[0], slack);
      RunKeepsInv(Step(s, events[0], slack), events[1..], slack);
    }
  }

  /** No caches, no calls, one initial value of the row. */
  ghost predicate Start(s: Sys) {
    |s.history| == 1 && s.history[0].at <= s.clock && s.caches == map[] && s.calls == map[]
  }

  /**
   Bounded staleness over every interleaving: a value served from a cache at time t was in the row at some
   moment later than t - 10 s - slack, where slack bounds how long a save takes between writing the row and
   refreshing its own cache (0 when saves are instantaneous); the only exception is a cached failed read.
   */
  lemma ServedValueWasStored(s: Sys, events: seq<Event>, slack: nat, isolate: Id)
    requires Start(s) && Served(Run(s, events, slack), isolate).Some?
    ensures var t := Run(s, events, slack);
            t.caches[isolate].failed
            || exists moment :: t.clock - TTL_MS - slack < moment <= t.clock
                                && WasStored(t.history, Served(t, isolate).value, moment)
  {
    RunKeepsInv(s, events, slack);
    var t := Run(s, events, slack);
    assert EntryOk(t, t.caches[isolate].at, t.caches[isolate].data, t.caches[isolate].asOf, t.caches[isolate].failed, slack);
  }

  /** So once the row has rested for the TTL (plus slack), every hit anywhere serves the current value. */
  lemma ChangeReachesEveryIsolate(s: Sys, events: seq<Event>, slack: nat, isolate: Id)
    requires Start(s) && Served(Run(s, events, slack), isolate).Some?
    requires !Run(s, events, slack).caches[isolate].failed
    requires var t := Run(s, events, slack); t.history[|t.history| - 1].at <= t.clock - TTL_MS - slack
    ensures Served(Run(s, events, slack), isolate).value == Stored(Run(s, events, slack))
  {
    ServedValueWasStored(s, events, slack, isolate);
    var t := Run(s, events, slack);
    var moment :| t.clock - TTL_MS - slack < moment <= t.clock && WasStored(t.history, Served(t, isolate).value, moment);
    var k: nat :| StoredBy(t.history, k, Served(t, isolate).value, moment);
    RunKeepsOrder(s, events, slack);
  }

  ghost predicate HistoryOrdered(h: seq<Write>) {
    forall i, j | 0 <= i < j < |h| :: h[i].at <= h[j].at
  }

  lemma {:induction false} RunKeepsOrderFrom(s: Sys, events: seq<Event>, slack: nat)
    requires Inv(s, slack) && HistoryOrdered(s.history)
    ensures HistoryOrdered(Run(s, events, slack).history)
    decreases |events|
  {
    if events != [] {
      StepKeepsInv(s, events[0], slack);
      RunKeepsOrderFrom(Step(s, events[0], slack), events[1..], slack);
    }
  }

  lemma RunKeepsOrder(s: Sys, events: seq<Event>, slack: nat)
    requires Start(s)
    ensures HistoryOrdered(Run(s, events, slack).history)
  {
    RunKeepsOrderFrom(s, events, slack);
  }

  // ---------------------------------------------------------------------
  // The bound is exact
  // ---------------------------------------------------------------------

  predicate AllReadsSucceed(events: seq<Event>) {
    forall e | e in events && e.GetRead? :: e.succeeds
  }

  ghost predicate NoneFailed(s: Sys) {
    && (forall i | i in s.caches :: !s.caches[i].failed)
    && (forall c | c in s.calls && s.calls[c].Fetched? :: !s.calls[c].failed)
  }

  lemma {:induction false} RunNeverFails(s: Sys, events: seq<Event>, slack: nat)
    requires s.history != [] && NoneFailed(s) && AllReadsSucceed(events)
    ensures NoneFailed(Run(s, events, slack))
    decreases |events|
  {
    if events != [] {
      assert events[0] in events;
      RunNeverFails(Step(s, events[0], slack), events[1..], slack);
    }
  }

  /** What the isolate serves was in the row at some moment of the last `bound` milliseconds. */
  ghost predicate ServedIsRecent(t: Sys, isolate: Id, bound: int) {
    Served(t, isolate).Some? ==>
      exists moment :: t.clock - bound < moment <= t.clock && WasStored(t.history, Served(t, isolate).value, moment)
  }

  /** ... at the end of every run of successful reads whose saves pause for at most `slack`. */
  ghost predicate AlwaysRecent(slack: nat, bound: int) {
    forall s, events, isolate | Start(s) && AllReadsSucceed(events) ::
      ServedIsRecent(Run(s, events, slack), isolate, bound)
  }

  const BLANK := Sys(0, [Write(0, NO_OVERRIDES)], map[], map[])

  /** A save that pauses between its two steps while another isolate saves, and then serves what it cached. */
  function PausedSave(slack: nat, lost: Overrides, kept: Overrides): seq<Event> {
    [SaveWrite("p", "a", lost), SaveWrite("q", "b", kept), Tick(slack), SaveCache("p"), Tick(TTL_MS - 1)]
  }

  lemma RunCons(s: Sys, e: Event, rest: seq<Event>, slack: int)
    requires s.history != []
    ensures Run(s, [e] + rest, slack) == Run(Step(s, e, slack), rest, slack)
  {
    assert ([e] + rest)[1..] == rest;
  }

  lemma PausedSaveEnds(slack: nat, lost: Overrides, kept: Overrides)
    ensures var t := Run(BLANK, PausedSave(slack, lost, kept), slack);
            && t.clock == slack + TTL_MS - 1
            && t.history == [Write(0, NO_OVERRIDES), Write(0, lost), Write(0, kept)]
            && t.caches == map["a" := Cached(slack, lost, 0, false)]
  {
    assert "p" != "q" by { assert "p"[0] != "q"[0]; }
    var save, other, tick, resume, wait :=
      SaveWrite("p", "a", lost), SaveWrite("q", "b", kept), Tick(slack), SaveCache("p"), Tick(TTL_MS - 1);
    var saving := Step(BLANK, save, slack);
    var saved := Step(saving, other, slack);
    assert saved.calls == map["p" := Written("a", lost, 0), "q" := Written("b", kept, 0)];
    assert saved.history == [Write(0, NO_OVERRIDES), Write(0, lost), Write(0, kept)];
    var paused := Step(saved, tick, slack);
    var resumed := Step(paused, resume, slack);
    assert resumed.caches == map["a" := Cached(slack, lost, 0, false)];
    RunCons(BLANK, save, [other, tick, resume, wait], slack);
    RunCons(saving, other, [tick, resume, wait], slack);
    RunCons(saved, tick, [resume, wait], slack);
    RunCons(paused, resume, [wait], slack);
    RunCons(resumed, wait, [], slack);
  }

  /** For every pause: the value lost in it is served TTL - 1 ms later, though it left the row when the other save came. */
  lemma SlowSaveServesReplacedValue(slack: nat, lost: Overrides, kept: Overrides)
    requires lost != kept && lost != NO_OVERRIDES
    ensures var t := Run(BLANK, PausedSave(slack, lost, kept), slack);
            && Served(t, "a") == Some(lost) && !t.caches["a"].failed
            && t.clock == slack + TTL_MS - 1
            && forall moment | moment > 0 :: !WasStored(t.history, lost, moment)
  {
    PausedSaveEnds(slack, lost, kept);
    var t := Run(BLANK, PausedSave(slack, lost, kept), slack);
    forall moment, k: nat | moment > 0 ensures !StoredBy(t.history, k, lost, moment) {
    }
  }

  /** TTL plus pause is the least bound that holds of every run. */
  lemma StalenessBoundIsExact(slack: nat, bound: int)
    ensures AlwaysRecent(slack, bound) <==> bound >= 10_000 + slack
  {
    if bound >= TTL_MS + slack {
      forall s, events, isolate | Start(s) && AllReadsSucceed(events)
        ensures ServedIsRecent(Run(s, events, slack), isolate, bound)
      {
        if Served(Run(s, events, slack), isolate).Some? {
          ServedValueWasStored(s, events, slack, isolate);
          RunNeverFails(s, events, slack);
        }
      }
    } else {
      var lost: Overrides, kept: Overrides := map["k" := "lost"], NO_OVERRIDES;
      assert "k" in lost;
      SlowSaveServesReplacedValue(slack, lost, kept);
      assert !ServedIsRecent(Run(BLANK, PausedSave(slack, lost, kept), slack), "a", bound);
      assert Start(BLANK) && AllReadsSucceed(PausedSave(slack, lost, kept));
    }
  }

  /** So the ten seconds of the cache bound staleness exactly when no save pauses between its two steps. */
  lemma TenSecondsIffNoPause(slack: nat)
    ensures AlwaysRecent(slack, 10_000) <==> slack == 0
  {
    StalenessBoundIsExact(slack, 10_000);
  }

  // ---------------------------------------------------------------------
  // The three functions of the module, run without interruption
  // ---------------------------------------------------------------------

  class ConfigStore {
    var sys: Sys

    /** A hit returns the cache; a miss reads the row and refreshes the cache, stamped with the clock read first. */
    method GetConfigOverrides(isolate: Id, call: Id, succeeds: bool) returns (data: Overrides)
      requires sys.history != [] && call !in sys.calls
      modifies this
      ensures Served(old(sys), isolate).Some? ==> data == Served(old(sys), isolate).value && sys == old(sys)
      ensures Served(old(sys), isolate).None? ==>
                && data == (if succeeds then Stored(old(sys)) else NO_OVERRIDES)
                && sys == Step(Step(Step(old(sys), GetStart(call, isolate), 0), GetRead(call, succeeds), 0), GetWrite(call), 0)
    {
      var now := sys.clock;
      if isolate in sys.caches && now - sys.caches[isolate].at < TTL_MS {
        return sys.caches[isolate].data;
      }
      data := NO_OVERRIDES;
      if succeeds {
        data := sys.history[|sys.history| - 1].data;
      }
      ghost var calls := sys.calls;
      sys := sys.(caches := sys.caches[isolate := Cached(now, data, now, !succeeds)]);
      assert calls[call := Missed(isolate, now)][call := Fetched(isolate, now, data, now, !succeeds)] - {call} == calls;
    }

    method SaveConfigOverrides(isolate: Id, call: Id, data: Overrides)
      requires sys.history != [] && call !in sys.calls
      modifies this
      ensures sys == Step(Step(old(sys), SaveWrite(call, isolate, data), 0), SaveCache(call), 0)
      ensures Served(sys, isolate) == Some(data) && Stored(sys) == data
    {
      ghost var calls := sys.calls;
      sys := sys.(history := sys.history + [Write(sys.clock, data)]);
      sys := sys.(caches := sys.caches[isolate := Cached(sys.clock, data, sys.clock, false)]);
      assert calls[call := Written(isolate, data, sys.clock)] - {call} == calls;
    }

    method ClearConfigOverrides(isolate: Id, call: Id)
      requires sys.history != [] && call !in sys.calls
      modifies this
      ensures sys == Step(Step(old(sys), SaveWrite(call, isolate, NO_OVERRIDES), 0), SaveCache(call), 0)
      ensures Served(sys, isolate) == Some(NO_OVERRIDES) && Stored(sys) == NO_OVERRIDES
    {
      SaveConfigOverrides(isolate, call, NO_OVERRIDES);
    }
  }
}
