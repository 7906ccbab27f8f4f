/** `WatchService` of local.go: a loop that looks up a service's address in the
    local registry, hands it to a pre-hook, then waits for a reason to look
    again (the one-minute ticker, a file-system event on the service's file or
    a watcher error), calling the post-hook with the previous address before
    each new lookup. It stops when the stop channel fires or either watcher
    channel closes.

    The goroutine, channels and hooks are not modelled as such: the events the
    `select` receives are given in order as a sequence, the file system that the
    k-th lookup sees is `history(k)`, and the hooks' calls are recorded as a
    trace. */
module Watcher {
  import opened Wrappers
  import Registry

  /** The file system at one moment: what reading each path gives. */
  type FileSystem = string -> Registry.FileRead

  /** The arguments of one `WatchService` call; a nil function or channel is a
      `false` presence flag. */
  datatype Session = Session(hasPreHook: bool, hasPostHook: bool, service: string,
                             discoveryPath: string, hasStopChan: bool)

  /** What the `select` receives. */
  datatype Event =
    | Tick                      // ticker.C
    | Stop                      // stopChan
    | FileEvent(name: string)   // a value from watcher.Events
    | EventsClosed              // watcher.Events closed
    | WatchError                // a value from watcher.Errors
    | ErrorsClosed              // watcher.Errors closed

  /** One call of a hook, with the address it was given. */
  datatype Hook = Pre(ip: string) | Post(ip: string)

  /** Why the loop ended; `Waiting` when it is still blocked in the `select`
      after the last given event. */
  datatype Exit = MissingArguments | WatcherFailed | Stopped
                | EventsChannelClosed | ErrorsChannelClosed | Waiting

  /** The hooks called, the reason for stopping, and how many times the loop
      went round (each time after the first lookup). */
  datatype Outcome = Outcome(trace: seq<Hook>, exit: Exit, cycles: nat)

  /** The guard at the top of `WatchService`; `postHook` may be nil. */
  predicate ArgumentsOk(s: Session)
  {
    s.discoveryPath != "" && s.service != "" && s.hasPreHook && s.hasStopChan
  }

  /** The file whose events matter, `path.Join(discoveryPath, service)`. */
  function WatchedPath(s: Session): string
  {
    Registry.ServicePath(s.discoveryPath, s.service)
  }

  /** The address the k-th lookup yields: "" when the lookup fails, since the
      error is ignored. */
  function IpAt(s: Session, history: nat -> FileSystem, k: nat): string
  {
    Registry.LookupLocalServiceIP(history(k)(WatchedPath(s))).ip
  }

  /** An event that ends the wait and starts a new round: a tick, a watcher
      error, or an event on the watched file. */
  predicate Triggers(s: Session, e: Event)
  {
    e.Tick? || e.WatchError? || (e.FileEvent? && e.name == WatchedPath(s))
  }

  function PostHooks(s: Session, ip: string): seq<Hook>
  {
    if s.hasPostHook then [Post(ip)] else []
  }

  /** Prefix a trace to an outcome. */
  function Extend(t: seq<Hook>, o: Outcome): Outcome
  {
    Outcome(t + o.trace, o.exit, o.cycles)
  }

  /** The addresses the successive lookups yield. */
  function Addresses(s: Session, history: nat -> FileSystem): (ips: nat -> string)
    ensures forall k: nat {:trigger ips(k)} :: ips(k) == IpAt(s, history, k)
  {
    (k: nat) => IpAt(s, history, k)
  }

  /** The loop from the `wait:` label in round `k`, where the current address
      is `ips(k)`. */
  function Run(s: Session, ips: nat -> string, events: seq<Event>, k: nat): (o: Outcome)
    ensures k <= o.cycles <= k + |events|
    ensures o.exit != MissingArguments && o.exit != WatcherFailed
    decreases |events|
  {
    if events == [] then Outcome([], Waiting, k)
    else
      var e := events[0];
      if e.Stop? then Outcome([], Stopped, k)
      else if e.EventsClosed? then Outcome([], EventsChannelClosed, k)
      else if e.ErrorsClosed? then Outcome([], ErrorsChannelClosed, k)
      else if !Triggers(s, e) then Run(s, ips, events[1..], k)
      else Extend(PostHooks(s, ips(k)) + [Pre(ips(k + 1))], Run(s, ips, events[1..], k + 1))
  }

  /** What a whole `WatchService` call does. */
  function WatchSpec(s: Session, watcherOk: bool, events: seq<Event>, history: nat -> FileSystem): (o: Outcome)
    ensures !ArgumentsOk(s) ==> o == Outcome([], MissingArguments, 0)
    ensures ArgumentsOk(s) && !watcherOk ==> o == Outcome([], WatcherFailed, 0)
    ensures ArgumentsOk(s) && watcherOk ==>
              o.trace != [] && o.trace[0] == Pre(IpAt(s, history, 0))
              && o.exit != MissingArguments && o.exit != WatcherFailed && o.cycles <= |events|
  {
    if !ArgumentsOk(s) then Outcome([], MissingArguments, 0)
    else if !watcherOk then Outcome([], WatcherFailed, 0)
    else
      var ips := Addresses(s, history);
      Extend([Pre(ips(0))], Run(s, ips, events, 0))
  }

  /** `WatchService`, after the argument check: `watcherOk` is whether
      `fsnotify.NewWatcher` succeeded (`log.Fatal` ends the process when it
      does not). */
  method WatchService(s: Session, watcherOk: bool, events: seq<Event>, history: nat -> FileSystem)
    returns (trace: seq<Hook>, exit: Exit)
    ensures trace == WatchSpec(s, watcherOk, events, history).trace
    ensures exit == WatchSpec(s, watcherOk, events, history).exit
  {
    if s.discoveryPath == "" || s.service == "" || !s.hasPreHook || !s.hasStopChan {
      return [], MissingArguments;
    }
    if !watcherOk {
      return [], WatcherFailed;
    }
    ghost var spec := WatchSpec(s, watcherOk, events, history);
    ghost var ips := Addresses(s, history);
    var path := Registry.ServicePath(s.discoveryPath, s.service);
    var k := 0;
    var ip := IpAt(s, history, k);
    trace := [Pre(ip)];
    var i := 0;
    assert events[0..] == events;
    while i < |events|
      invariant 0 <= i <= |events|
      invariant ip == ips(k)
      invariant spec == Extend(trace, Run(s, ips, events[i..], k))
    {
      var e := events[i];
      ghost var before := trace;
      RunStep(s, ips, events, i, k);
      i := i + 1;
      if e.Stop? {
        return trace, Stopped;
      } else if e.EventsClosed? {
        return trace, EventsChannelClosed;
      } else if e.ErrorsClosed? {
        return trace, ErrorsChannelClosed;
      } else if e.FileEvent? && e.name != path {
        continue;
      }
      trace, ip := NextRound(s, history, k, ip, trace);
      k := k + 1;
      ExtendTwice(before, PostHooks(s, ips(k - 1)) + [Pre(ips(k))], Run(s, ips, events[i..], k));
    }
    return trace, Waiting;
  }

  /** The end of one round and the start of the next: the post-hook with the
      current address, a new lookup, the pre-hook with its result. */
  method NextRound(s: Session, history: nat -> FileSystem, k: nat, ip: string, trace: seq<Hook>)
    returns (trace': seq<Hook>, ip': string)
    requires ip == Addresses(s, history)(k)
    ensures ip' == Addresses(s, history)(k + 1)
    ensures trace' == trace + (PostHooks(s, ip) + [Pre(ip')])
  {
    var posted := PostHooks(s, ip);
    ip' := IpAt(s, history, k + 1);
    trace' := trace + (posted + [Pre(ip')]);
  }

  /** One turn of the loop, as `Run` sees it. */
  lemma RunStep(s: Session, ips: nat -> string, events: seq<Event>, i: nat, k: nat)
    requires i < |events|
    ensures var e := events[i];
            var o := Run(s, ips, events[i..], k);
            && (e.Stop? ==> o == Outcome([], Stopped, k))
            && (e.EventsClosed? ==> o == Outcome([], EventsChannelClosed, k))
            && (e.ErrorsClosed? ==> o == Outcome([], ErrorsChannelClosed, k))
            && (e.FileEvent? && !Triggers(s, e) ==> o == Run(s, ips, events[i + 1..], k))
            && (Triggers(s, e) ==>
                  o == Extend(PostHooks(s, ips(k)) + [Pre(ips(k + 1))], Run(s, ips, events[i + 1..], k + 1)))
  {
    assert events[i..][0] == events[i] && events[i..][1..] == events[i + 1..];
  }

  lemma ExtendTwice(t: seq<Hook>, p: seq<Hook>, o: Outcome)
    ensures Extend(t, Extend(p, o)) == Extend(t + p, o)
  {
    assert t + (p + o.trace) == (t + p) + o.trace;
  }

  // ---------------------------------------------------------------------------
  // The trace, independently of the events
  // ---------------------------------------------------------------------------

  /** The trace after `n` rounds: `Pre(ips(0))`, then for each round `Post` with
      the previous address (when there is a post-hook) and `Pre` with the new
      one. */
  function Expected(s: Session, ips: nat -> string, n: nat): (t: seq<Hook>)
    ensures t != [] && t[0] == Pre(ips(0)) && t[|t| - 1] == Pre(ips(n))
  {
    if n == 0 then [Pre(ips(0))]
    else Expected(s, ips, n - 1) + PostHooks(s, ips(n - 1)) + [Pre(ips(n))]
  }

  lemma {:induction false} RunIsExpected(s: Session, ips: nat -> string, events: seq<Event>, k: nat)
    ensures var o := Run(s, ips, events, k);
            Expected(s, ips, k) + o.trace == Expected(s, ips, o.cycles)
    decreases |events|
  {
    if events != [] {
      var e := events[0];
      if e.Stop? || e.EventsClosed? || e.ErrorsClosed? {
      } else if !Triggers(s, e) {
        RunIsExpected(s, ips, events[1..], k);
      } else {
        RunIsExpected(s, ips, events[1..], k + 1);
        ExpectedRound(s, ips, k, Run(s, ips, events[1..], k + 1).trace);
      }
    }
  }

  lemma ExpectedRound(s: Session, ips: nat -> string, k: nat, t: seq<Hook>)
    ensures Expected(s, ips, k) + ((PostHooks(s, ips(k)) + [Pre(ips(k + 1))]) + t)
            == Expected(s, ips, k + 1) + t
  {
    var p := PostHooks(s, ips(k)) + [Pre(ips(k + 1))];
    assert Expected(s, ips, k + 1) == Expected(s, ips, k) + p;
  }

  /** Whatever the events, a call that gets past its checks produces exactly the
      reference trace for the number of rounds it went through, the k-th
      address being what the k-th lookup read. */
  lemma TraceIsExpected(s: Session, watcherOk: bool, events: seq<Event>, history: nat -> FileSystem)
    requires ArgumentsOk(s) && watcherOk
    ensures var o := WatchSpec(s, watcherOk, events, history);
            o.trace == Expected(s, Addresses(s, history), o.cycles)
  {
    RunIsExpected(s, Addresses(s, history), events, 0);
  }

  /** Each post-hook call directly follows the pre-hook call of the same
      address; the trace starts and ends with a pre-hook call. */
  predicate Paired(t: seq<Hook>)
  {
    && t != [] && t[0].Pre? && t[|t| - 1].Pre?
    && forall j :: 0 <= j < |t| && t[j].Post? ==> 0 < j && t[j - 1] == Pre(t[j].ip)
  }

  lemma {:induction false} ExpectedPaired(s: Session, ips: nat -> string, n: nat)
    ensures Paired(Expected(s, ips, n))
  {
    if n > 0 {
      ExpectedPaired(s, ips, n - 1);
      var prev := Expected(s, ips, n - 1);
      var p := PostHooks(s, ips(n - 1));
      var t := prev + p + [Pre(ips(n))];
      assert t == Expected(s, ips, n);
      forall j | 0 <= j < |t| && t[j].Post?
        ensures 0 < j && t[j - 1] == Pre(t[j].ip)
      {
        if j < |prev| {
          assert t[j] == prev[j] && t[j - 1] == prev[j - 1];
        } else {
          assert j == |prev| && t[j - 1] == prev[|prev| - 1];
        }
      }
    }
  }

  /** The post-hook is only ever given the address the pre-hook was last given. */
  lemma PostFollowsPre(s: Session, watcherOk: bool, events: seq<Event>, history: nat -> FileSystem)
    requires ArgumentsOk(s) && watcherOk
    ensures Paired(WatchSpec(s, watcherOk, events, history).trace)
  {
    TraceIsExpected(s, watcherOk, events, history);
    ExpectedPaired(s, Addresses(s, history), WatchSpec(s, watcherOk, events, history).cycles);
  }

  function PreCount(t: seq<Hook>): nat
  {
    if t == [] then 0 else PreCount(t[..|t| - 1]) + (if t[|t| - 1].Pre? then 1 else 0)
  }

  function PostCount(t: seq<Hook>): nat
  {
    if t == [] then 0 else PostCount(t[..|t| - 1]) + (if t[|t| - 1].Post? then 1 else 0)
  }

  lemma {:induction false} CountsAppend(a: seq<Hook>, b: seq<Hook>)
    ensures PreCount(a + b) == PreCount(a) + PreCount(b)
    ensures PostCount(a + b) == PostCount(a) + PostCount(b)
    decreases |b|
  {
    if b == [] {
      assert a + b == a;
    } else {
      var b' := b[..|b| - 1];
      assert (a + b)[..|a + b| - 1] == a + b';
      assert (a + b)[|a + b| - 1] == b[|b| - 1];
      CountsAppend(a, b');
    }
  }

  lemma CountsOfSingle(h: Hook)
    ensures PreCount([h]) == (if h.Pre? then 1 else 0)
    ensures PostCount([h]) == (if h.Post? then 1 else 0)
  {
    assert [h][..0] == [];
  }

  lemma {:induction false} ExpectedCounts(s: Session, ips: nat -> string, n: nat)
    ensures PreCount(Expected(s, ips, n)) == n + 1
    ensures PostCount(Expected(s, ips, n)) == if s.hasPostHook then n else 0
  {
    if n == 0 {
      CountsOfSingle(Pre(ips(0)));
    } else {
      ExpectedCounts(s, ips, n - 1);
      var prev := Expected(s, ips, n - 1);
      var p := PostHooks(s, ips(n - 1));
      CountsOfSingle(Pre(ips(n)));
      CountsOfSingle(Post(ips(n - 1)));
      CountsAppend(prev, p);
      CountsAppend(prev + p, [Pre(ips(n))]);
    }
  }

  /** The pre-hook runs once more than the loop goes round; the post-hook runs
      once per round, or never when there is none. */
  lemma HookCounts(s: Session, watcherOk: bool, events: seq<Event>, history: nat -> FileSystem)
    requires ArgumentsOk(s) && watcherOk
    ensures var o := WatchSpec(s, watcherOk, events, history);
            && PreCount(o.trace) == o.cycles + 1
            && PostCount(o.trace) == (if s.hasPostHook then o.cycles else 0)
  {
    TraceIsExpected(s, watcherOk, events, history);
    ExpectedCounts(s, Addresses(s, history), WatchSpec(s, watcherOk, events, history).cycles);
  }

  // ---------------------------------------------------------------------------
  // Events
  // ---------------------------------------------------------------------------

  /** The continuation of a run of `a` by the events `b`: nothing once the loop
      has stopped, otherwise the run of `b` from the round it had reached. */
  function Then(s: Session, ips: nat -> string, o: Outcome, b: seq<Event>): Outcome
  {
    if o.exit != Waiting then o else Extend(o.trace, Run(s, ips, b, o.cycles))
  }

  /** Feeding events in two batches is feeding them at once. */
  lemma {:induction false} RunAppend(s: Session, ips: nat -> string, a: seq<Event>, b: seq<Event>, k: nat)
    ensures Run(s, ips, a + b, k) == Then(s, ips, Run(s, ips, a, k), b)
    decreases |a|
  {
    if a == [] {
      assert a + b == b;
    } else {
      assert (a + b)[0] == a[0] && (a + b)[1..] == a[1..] + b;
      var e := a[0];
      if e.Stop? || e.EventsClosed? || e.ErrorsClosed? {
      } else if !Triggers(s, e) {
        RunAppend(s, ips, a[1..], b, k);
      } else {
        RunAppend(s, ips, a[1..], b, k + 1);
        var p := PostHooks(s, ips(k)) + [Pre(ips(k + 1))];
        ThenExtend(s, ips, p, Run(s, ips, a[1..], k + 1), b);
      }
    }
  }

  /** A triggering event reaching a waiting loop completes one round: the
      post-hook with the round's address, then the pre-hook with the next
      lookup's, and the loop waits again one round further on. */
  lemma TriggerCompletesRound(s: Session, ips: nat -> string, a: seq<Event>, e: Event, k: nat)
    requires Triggers(s, e) && Run(s, ips, a, k).exit == Waiting
    ensures var o := Run(s, ips, a, k);
            Run(s, ips, a + [e], k)
            == Outcome(o.trace + PostHooks(s, ips(o.cycles)) + [Pre(ips(o.cycles + 1))], Waiting, o.cycles + 1)
  {
    var o := Run(s, ips, a, k);
    RunAppend(s, ips, a, [e], k);
    OneRound(s, ips, e, o.cycles);
    var p := PostHooks(s, ips(o.cycles)) + [Pre(ips(o.cycles + 1))];
    assert Run(s, ips, a + [e], k) == Outcome(o.trace + p, Waiting, o.cycles + 1);
  }

  /** A single triggering event from round `k`. */
  lemma OneRound(s: Session, ips: nat -> string, e: Event, k: nat)
    requires Triggers(s, e)
    ensures Run(s, ips, [e], k) == Outcome(PostHooks(s, ips(k)) + [Pre(ips(k + 1))], Waiting, k + 1)
  {
    assert [e][1..] == [];
  }

  lemma ThenExtend(s: Session, ips: nat -> string, p: seq<Hook>, o: Outcome, b: seq<Event>)
    ensures Extend(p, Then(s, ips, o, b)) == Then(s, ips, Extend(p, o), b)
  {
    if o.exit == Waiting {
      var o2 := Run(s, ips, b, o.cycles);
      assert p + (o.trace + o2.trace) == (p + o.trace) + o2.trace;
    }
  }

  /** Events after the call has returned change nothing. */
  lemma AfterExitIgnored(s: Session, watcherOk: bool, events: seq<Event>, more: seq<Event>,
                         history: nat -> FileSystem)
    requires WatchSpec(s, watcherOk, events, history).exit != Waiting
    ensures WatchSpec(s, watcherOk, events + more, history) == WatchSpec(s, watcherOk, events, history)
  {
    if ArgumentsOk(s) && watcherOk {
      RunAppend(s, Addresses(s, history), events, more, 0);
    }
  }

  /** A stop, or the closing of either watcher channel, while the loop is
      waiting ends it there: no further hook call, whatever comes next. */
  lemma EndingEventStops(s: Session, watcherOk: bool, a: seq<Event>, e: Event, b: seq<Event>,
                         history: nat -> FileSystem)
    requires e.Stop? || e.EventsClosed? || e.ErrorsClosed?
    requires WatchSpec(s, watcherOk, a, history).exit == Waiting
    ensures var o := WatchSpec(s, watcherOk, a + [e] + b, history);
            && o.trace == WatchSpec(s, watcherOk, a, history).trace
            && o.cycles == WatchSpec(s, watcherOk, a, history).cycles
            && o.exit == (if e.Stop? then Stopped else if e.EventsClosed? then EventsChannelClosed
                          else ErrorsChannelClosed)
  {
    var ips := Addresses(s, history);
    var m := [e] + b;
    assert a + [e] + b == a + m;
    RunAppend(s, ips, a, m, 0);
    var o := Run(s, ips, a, 0);
    assert m[0] == e;
    assert o.trace + [] == o.trace;
  }

  /** An event on another file of the registry directory changes nothing: the
      loop goes back to waiting without a lookup or a hook call. */
  lemma UnrelatedEventIgnored(s: Session, watcherOk: bool, a: seq<Event>, name: string, b: seq<Event>,
                              history: nat -> FileSystem)
    requires name != WatchedPath(s)
    ensures WatchSpec(s, watcherOk, a + [FileEvent(name)] + b, history) == WatchSpec(s, watcherOk, a + b, history)
  {
    if ArgumentsOk(s) && watcherOk {
      var ips := Addresses(s, history);
      var m := [FileEvent(name)] + b;
      assert a + [FileEvent(name)] + b == a + m;
      RunAppend(s, ips, a, m, 0);
      RunAppend(s, ips, a, b, 0);
      var o := Run(s, ips, a, 0);
      assert m[0] == FileEvent(name) && m[1..] == b;
      assert Run(s, ips, m, o.cycles) == Run(s, ips, b, o.cycles);
    }
  }

  /** The pre-hook is called right away, whatever the events, with what the
      first lookup read, and it is called even when that lookup fails, with "". */
  lemma PreHookRightAway(s: Session, watcherOk: bool, events: seq<Event>, history: nat -> FileSystem)
    requires ArgumentsOk(s) && watcherOk
    ensures var o := WatchSpec(s, watcherOk, events, history);
            var r := Registry.LookupLocalServiceIP(history(0)(WatchedPath(s)));
            o.trace != [] && o.trace[0] == Pre(r.ip) && (r.err.Some? ==> o.trace[0] == Pre(""))
  {
  }

  /** A stop before anything else: one pre-hook call and nothing more. */
  lemma StopAtOnce(s: Session, watcherOk: bool, more: seq<Event>, history: nat -> FileSystem)
    requires ArgumentsOk(s) && watcherOk
    ensures WatchSpec(s, watcherOk, [Stop] + more, history)
            == Outcome([Pre(IpAt(s, history, 0))], Stopped, 0)
  {
  }
}
